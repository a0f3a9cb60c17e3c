/**
 * The preview transform of `src/utils/markdownExtensions.ts`: code is swapped
 * for placeholders, legacy `<font>` tags become sanitised `<span>` tags, every
 * other angle bracket is escaped, and the code is put back.
 *
 * Regular expressions are modelled by the match they make: each pattern is a
 * function giving the end of the match that starts at a position, and a
 * global replace is a left-to-right scan that resumes after each match.
 */
module Markdown {
  import opened Common
  import opened Strings

  /** How often `c` occurs in `s`. */
  function Count(s: string, c: char): nat {
    if s == [] then 0 else (if s[0] == c then 1 else 0) + Count(s[1..], c)
  }

  lemma {:induction false} CountAppend(a: string, b: string, c: char)
    ensures Count(a + b, c) == Count(a, c) + Count(b, c)
    decreases |a|
  {
    if a == [] {
      assert a + b == b;
    } else {
      assert (a + b)[1..] == a[1..] + b;
      CountAppend(a[1..], b, c);
    }
  }

  lemma {:induction false} CountAbsent(s: string, c: char)
    requires c !in s
    ensures Count(s, c) == 0
    decreases |s|
  {
    if s != [] {
      CountAbsent(s[1..], c);
    }
  }

  // ---------------------------------------------------------------------------
  // Escaping and attribute values
  // ---------------------------------------------------------------------------

  /** `s.replace(/</g, '&lt;').replace(/>/g, '&gt;')`. */
  function EscapeAngleBrackets(s: string): (r: string)
    ensures '<' !in r && '>' !in r
    ensures '"' in r <==> '"' in s
    ensures Count(r, '"') == Count(s, '"')
  {
    if s == [] then []
    else
      var head := if s[0] == '<' then "&lt;" else if s[0] == '>' then "&gt;" else [s[0]];
      var rest := EscapeAngleBrackets(s[1..]);
      CountAppend(head, rest, '"');
      head + rest
  }

  lemma {:induction false} EscapeAppend(a: string, b: string)
    ensures EscapeAngleBrackets(a + b) == EscapeAngleBrackets(a) + EscapeAngleBrackets(b)
    decreases |a|
  {
    if a == [] {
      assert a + b == b;
    } else {
      assert (a + b)[1..] == a[1..] + b;
      EscapeAppend(a[1..], b);
    }
  }

  /** Text without angle brackets passes through unchanged. */
  lemma {:induction false} EscapeIdentity(s: string)
    requires '<' !in s && '>' !in s
    ensures EscapeAngleBrackets(s) == s
    decreases |s|
  {
    if s != [] {
      EscapeIdentity(s[1..]);
      assert [s[0]] + s[1..] == s;
    }
  }

  predicate Quoted(t: string) {
    (StartsWith(t, "\"") && EndsWith(t, "\"")) || (StartsWith(t, "'") && EndsWith(t, "'"))
  }

  /**
   * `stripQuotes`: trims, then drops one surrounding pair of `"` or `'`
   * (`slice(1, -1)`, which leaves '' for a lone quote).
   */
  function StripQuotes(s: string): (r: string)
    ensures forall c :: c in r ==> c in s
    ensures !Quoted(Trim(s, Js)) ==> r == Trim(s, Js)
  {
    var t := Trim(s, Js);
    if Quoted(t) then
      if |t| >= 2 then t[1..|t| - 1] else ""
    else t
  }

  /** A quoted value loses exactly its quotes. */
  lemma StripQuotesOfQuoted(q: char, x: string)
    requires q == '"' || q == '\''
    ensures StripQuotes([q] + x + [q]) == x
  {
    var s := [q] + x + [q];
    TrimIdentity(s, Js);
    QuotePair(q, x, s);
  }

  lemma QuotePair(q: char, x: string, s: string)
    requires q == '"' || q == '\''
    requires s == [q] + x + [q]
    ensures Quoted(s) && |s| >= 2 && s[1..|s| - 1] == x
  {
    assert s[..1] == [q] && s[|s| - 1..] == [q];
  }

  predicate IsLineTerminator(c: char) {
    c == '\n' || c == '\r' || c == '\U{2028}' || c == '\U{2029}'
  }

  /** The end of the longest run of white space starting at `i` (`\s*`). */
  function SkipSpaces(s: string, i: nat): (j: nat)
    requires i <= |s|
    ensures i <= j <= |s| && (j == |s| || !IsSpace(s[j], Js))
    ensures forall k :: i <= k < j ==> IsSpace(s[k], Js)
    decreases |s| - i
  {
    if i < |s| && IsSpace(s[i], Js) then SkipSpaces(s, i + 1) else i
  }

  /** The first `q` after position `i` with no line terminator before it (`.*?` then the quote). */
  function ClosingQuote(s: string, i: nat, q: char): (r: Option<nat>)
    requires i <= |s|
    ensures r.Some? ==> i <= r.value < |s| && s[r.value] == q
    ensures r.Some? ==> forall k :: i <= k < r.value ==> s[k] != q && !IsLineTerminator(s[k])
    decreases |s| - i
  {
    if i == |s| || IsLineTerminator(s[i]) then None
    else if s[i] == q then Some(i)
    else ClosingQuote(s, i + 1, q)
  }

  /** The end of the longest run starting at `i` of characters that are neither white space nor `>` (`[^\s>]*`). */
  function BareEnd(s: string, i: nat): (j: nat)
    requires i <= |s|
    ensures i <= j <= |s| && (j == |s| || IsSpace(s[j], Js) || s[j] == '>')
    ensures forall k :: i <= k < j ==> !IsSpace(s[k], Js) && s[k] != '>'
    decreases |s| - i
  {
    if i < |s| && !IsSpace(s[i], Js) && s[i] != '>' then BareEnd(s, i + 1) else i
  }

  /** The end of the value group `(".*?"|'.*?'|[^\s>]+)` matched at `i`, trying the alternatives in order. */
  function ValueEnd(s: string, i: nat): (r: Option<nat>)
    requires i <= |s|
    ensures r.Some? ==> i < r.value <= |s|
  {
    if i < |s| && s[i] == '"' && ClosingQuote(s, i + 1, '"').Some? then Some(ClosingQuote(s, i + 1, '"').value + 1)
    else if i < |s| && s[i] == '\'' && ClosingQuote(s, i + 1, '\'').Some? then Some(ClosingQuote(s, i + 1, '\'').value + 1)
    else if BareEnd(s, i) > i then Some(BareEnd(s, i))
    else None
  }

  /** The value group of `name\s*=\s*(…)` matched (case-insensitively) at position `i`, if it matches there. */
  function AttrAt(attrs: string, name: string, i: nat): Option<string>
    requires i <= |attrs|
  {
    if i + |name| <= |attrs| && ToLower(attrs[i..i + |name|]) == ToLower(name) then
      var j := SkipSpaces(attrs, i + |name|);
      if j < |attrs| && attrs[j] == '=' then
        var k := SkipSpaces(attrs, j + 1);
        match ValueEnd(attrs, k)
        case Some(e) => Some(attrs[k..e])
        case None => None
      else None
    else None
  }

  /** The attribute matches position by position, as a value the search can be stated over. */
  function AttrReader(attrs: string, name: string): nat -> Option<string> {
    (k: nat) => if k <= |attrs| then AttrAt(attrs, name, k) else None
  }

  /** The leftmost match among positions `i` to `n` of the reader `at`. */
  function PickAttrFrom(at: nat -> Option<string>, n: nat, i: nat): Option<string>
    requires i <= n
    decreases n - i
  {
    if at(i).Some? then at(i)
    else if i == n then None
    else PickAttrFrom(at, n, i + 1)
  }

  /** The search finds nothing only when no position from `i` to `n` matches. */
  lemma {:induction false} PickAttrFromNone(at: nat -> Option<string>, n: nat, i: nat)
    requires i <= n && PickAttrFrom(at, n, i).None?
    ensures forall k :: i <= k <= n ==> at(k).None?
    decreases n - i
  {
    if i < n {
      PickAttrFromNone(at, n, i + 1);
    }
  }

  /** What the search finds is the value at the leftmost matching position `k`. */
  lemma {:induction false} PickAttrFromAt(at: nat -> Option<string>, n: nat, i: nat) returns (k: nat)
    requires i <= n && PickAttrFrom(at, n, i).Some?
    ensures i <= k <= n && at(k).Some? && PickAttrFrom(at, n, i) == at(k)
    ensures forall k' :: i <= k' < k ==> at(k').None?
    decreases n - i
  {
    if at(i).Some? {
      k := i;
    } else {
      k := PickAttrFromAt(at, n, i + 1);
    }
  }

  /**
   * `pickAttr`: the first (leftmost) `name = value` in the attribute text,
   * quotes stripped. The name is not anchored at a word boundary.
   */
  function PickAttr(attrs: string, name: string): Option<string> {
    match PickAttrFrom(AttrReader(attrs, name), |attrs|, 0)
    case Some(v) => Some(StripQuotes(v))
    case None => None
  }

  /** No attribute is picked exactly when the name and value match at no position. */
  lemma PickAttrAbsent(attrs: string, name: string)
    ensures PickAttr(attrs, name).None? <==> forall k :: 0 <= k <= |attrs| ==> AttrAt(attrs, name, k).None?
  {
    var at := AttrReader(attrs, name);
    if PickAttr(attrs, name).None? {
      PickAttrFromNone(at, |attrs|, 0);
      forall k | 0 <= k <= |attrs| ensures AttrAt(attrs, name, k).None? {
        assert at(k) == AttrAt(attrs, name, k);
      }
    } else {
      var k := PickAttrFromAt(at, |attrs|, 0);
      assert at(k) == AttrAt(attrs, name, k);
    }
  }

  /** A picked attribute is the value at the leftmost position where the name and value match. */
  lemma PickAttrLeftmost(attrs: string, name: string) returns (k: nat)
    requires PickAttr(attrs, name).Some?
    ensures k <= |attrs| && AttrAt(attrs, name, k).Some?
    ensures PickAttr(attrs, name).value == StripQuotes(AttrAt(attrs, name, k).value)
    ensures forall k' :: 0 <= k' < k ==> AttrAt(attrs, name, k').None?
  {
    var at := AttrReader(attrs, name);
    k := PickAttrFromAt(at, |attrs|, 0);
    assert at(k) == AttrAt(attrs, name, k);
    forall k' | 0 <= k' < k ensures AttrAt(attrs, name, k').None? {
      assert at(k') == AttrAt(attrs, name, k');
    }
  }

  /** The value at a matching position with no match before it is the one picked. */
  lemma PickAttrFirst(attrs: string, name: string, k: nat)
    requires k <= |attrs| && AttrAt(attrs, name, k).Some?
    requires forall k' :: 0 <= k' < k ==> AttrAt(attrs, name, k').None?
    ensures PickAttr(attrs, name) == Some(StripQuotes(AttrAt(attrs, name, k).value))
  {
    var at := AttrReader(attrs, name);
    PickAttrFromFirst(at, |attrs|, 0, k);
  }

  lemma {:induction false} PickAttrFromFirst(at: nat -> Option<string>, n: nat, i: nat, k: nat)
    requires i <= k <= n && at(k).Some?
    requires forall k' :: i <= k' < k ==> at(k').None?
    ensures PickAttrFrom(at, n, i) == at(k)
    decreases k - i
  {
    if i < k {
      PickAttrFromFirst(at, n, i + 1, k);
    }
  }

  /** A double-quoted attribute is read back as written. */
  lemma PickAttrOfQuoted(name: string, v: string)
    requires '"' !in v && forall c :: c in v ==> !IsLineTerminator(c)
    ensures PickAttr(name + "=\"" + v + "\"", name) == Some(v)
  {
    AttrAtOfQuoted(name, v);
    StripQuotesOfQuoted('"', v);
    var attrs := name + "=\"" + v + "\"";
    assert AttrReader(attrs, name)(0) == AttrAt(attrs, name, 0);
  }

  lemma AttrAtOfQuoted(name: string, v: string)
    requires '"' !in v && forall c :: c in v ==> !IsLineTerminator(c)
    ensures AttrAt(name + "=\"" + v + "\"", name, 0) == Some(['"'] + v + ['"'])
  {
    var attrs := name + "=\"" + v + "\"";
    var n := |name|;
    assert attrs[0..n] == name;
    assert attrs[n] == '=';
    assert SkipSpaces(attrs, n) == n;
    assert attrs[n + 1] == '"';
    assert SkipSpaces(attrs, n + 1) == n + 1;
    assert attrs[n + 2..n + 2 + |v|] == v;
    ClosingQuoteOfPlain(attrs, n + 2, v);
    assert ValueEnd(attrs, n + 1) == Some(|attrs|);
    assert attrs[n + 1..|attrs|] == ['"'] + v + ['"'];
  }

  lemma {:induction false} ClosingQuoteOfPlain(s: string, i: nat, v: string)
    requires i + |v| < |s| && s[i..i + |v|] == v && s[i + |v|] == '"'
    requires '"' !in v && forall c :: c in v ==> !IsLineTerminator(c)
    ensures ClosingQuote(s, i, '"') == Some(i + |v|)
    decreases |v|
  {
    if v != [] {
      assert s[i] == v[0];
      assert s[i + 1..i + 1 + |v[1..]|] == v[1..];
      ClosingQuoteOfPlain(s, i + 1, v[1..]);
    }
  }

  /** The name is not matched at a word boundary: `bgcolor=red` gives a colour. */
  lemma PickAttrMatchesInsideWords()
    ensures PickAttr("bgcolor=red", "color") == Some("red")
  {
    var a := "bgcolor=red";
    NoColorBefore(a, 0);
    NoColorBefore(a, 1);
    ColorInsideWord(a);
    PickAttrFirst(a, "color", 2);
    StripPlain("red");
  }

  lemma StripPlain(v: string)
    requires v == "red"
    ensures StripQuotes(v) == v
  {
    TrimIdentity(v, Js);
    assert !Quoted(v) by {
      assert v[..1] == "r";
    }
  }

  lemma NoColorBefore(a: string, i: nat)
    requires a == "bgcolor=red" && i < 2
    ensures AttrAt(a, "color", i).None?
  {
    assert ToLower(a[i..i + 5])[0] != ToLower("color")[0] by {
      assert a[i] == (if i == 0 then 'b' else 'g');
    }
  }

  lemma ColorInsideWord(a: string)
    requires a == "bgcolor=red"
    ensures AttrAt(a, "color", 2) == Some("red")
  {
    assert a[2..7] == "color";
    assert ToLower(a[2..7]) == ToLower("color");
    assert SkipSpaces(a, 7) == 7;
    assert SkipSpaces(a, 8) == 8;
    assert BareEnd(a, 11) == 11;
    assert BareEnd(a, 8) == 11;
    assert a[8..11] == "red";
  }

  // ---------------------------------------------------------------------------
  // Sanitisers
  // ---------------------------------------------------------------------------

  predicate IsHexDigit(c: char) {
    IsDigit(c) || ('a' <= c <= 'f') || ('A' <= c <= 'F')
  }

  /** `/^#[0-9a-f]{3}$/i` or `/^#[0-9a-f]{6}$/i`. */
  predicate IsHexColor(v: string) {
    (|v| == 4 || |v| == 7) && v[0] == '#' && forall i :: 1 <= i < |v| ==> IsHexDigit(v[i])
  }

  /** `/^[a-z]+$/i` (ASCII letters only: the pattern is not in Unicode mode). */
  predicate IsColorName(v: string) {
    |v| >= 1 && forall i :: 0 <= i < |v| ==> IsAsciiLetter(v[i])
  }

  /** The end of the longest run of digits starting at `i`. */
  function DigitsEnd(s: string, i: nat): (j: nat)
    requires i <= |s|
    ensures i <= j <= |s| && (j == |s| || !IsDigit(s[j]))
    ensures forall k :: i <= k < j ==> IsDigit(s[k])
    decreases |s| - i
  {
    if i < |s| && IsDigit(s[i]) then DigitsEnd(s, i + 1) else i
  }

  /** `\s*\d{1,3}\s*` at `i`: the end of the match, when the digit run has one to three digits. */
  function Component(s: string, i: nat): (r: Option<nat>)
    requires i <= |s|
    ensures r.Some? ==> i < r.value <= |s|
    ensures r.Some? ==> forall k :: i <= k < r.value ==> IsDigit(s[k]) || IsSpace(s[k], Js)
  {
    var a := SkipSpaces(s, i);
    var b := DigitsEnd(s, a);
    if 1 <= b - a <= 3 then Some(SkipSpaces(s, b)) else None
  }

  /** `n` components separated by `,`, starting at `i`: the end of the match. */
  function Components(s: string, i: nat, n: nat): (r: Option<nat>)
    requires i <= |s| && n >= 1
    ensures r.Some? ==> i < r.value <= |s|
    ensures r.Some? ==> forall k :: i <= k < r.value ==> IsDigit(s[k]) || IsSpace(s[k], Js) || s[k] == ','
    decreases n
  {
    match Component(s, i)
    case None => None
    case Some(e) =>
      if n == 1 then Some(e)
      else if e < |s| && s[e] == ',' then Components(s, e + 1, n - 1)
      else None
  }

  /** `\s*\)$` at `i`. */
  predicate CloseAt(s: string, i: nat)
    requires i <= |s|
  {
    SkipSpaces(s, i) + 1 == |s| && s[SkipSpaces(s, i)] == ')'
  }

  /** `(0|1|0?\.\d+)\s*\)$` at `i`, trying the alternatives in order. */
  predicate AlphaCloseAt(s: string, i: nat)
    requires i <= |s|
  {
    (i < |s| && (s[i] == '0' || s[i] == '1') && CloseAt(s, i + 1))
    || FractionCloseAt(s, if i < |s| && s[i] == '0' then i + 1 else i)
  }

  /** `\.\d+\s*\)$` at `d`. */
  predicate FractionCloseAt(s: string, d: nat)
    requires d <= |s|
  {
    d < |s| && s[d] == '.' && DigitsEnd(s, d + 1) > d + 1 && CloseAt(s, DigitsEnd(s, d + 1))
  }

  /** `/^rgb\(\s*\d{1,3}\s*,\s*\d{1,3}\s*,\s*\d{1,3}\s*\)$/i`. */
  predicate IsRgb(v: string) {
    |v| >= 4 && ToLower(v[..4]) == "rgb("
    && var c := Components(v, 4, 3); c.Some? && CloseAt(v, c.value)
  }

  /** `/^rgba\(\s*\d{1,3}\s*,\s*\d{1,3}\s*,\s*\d{1,3}\s*,\s*(0|1|0?\.\d+)\s*\)$/i`. */
  predicate IsRgba(v: string) {
    |v| >= 5 && ToLower(v[..5]) == "rgba("
    && Components(v, 5, 3).Some? && Components(v, 5, 3).value < |v| && v[Components(v, 5, 3).value] == ','
    && AlphaCloseAt(v, SkipSpaces(v, Components(v, 5, 3).value + 1))
  }

  /** The characters an accepted colour can contain. */
  predicate IsColorChar(c: char) {
    IsAsciiLetter(c) || IsDigit(c) || IsSpace(c, Js) || c == '#' || c == '(' || c == ')' || c == ',' || c == '.'
  }

  /**
   * `sanitizeColor`: the trimmed value when it is a hex colour, a colour name,
   * `rgb(…)` or `rgba(…)`; nothing otherwise. An accepted colour cannot carry
   * a quote, an angle bracket, a colon or a semicolon out of the style.
   */
  function SanitizeColor(value: string): (r: Option<string>)
    ensures r.Some? ==> r.value == Trim(value, Js) && r.value != ""
    ensures r.Some? ==> forall i :: 0 <= i < |r.value| ==> IsColorChar(r.value[i])
  {
    var v := Trim(value, Js);
    if IsHexColor(v) || IsColorName(v) then Some(v)
    else if IsRgb(v) then
      RgbChars(v, 4);
      Some(v)
    else if IsRgba(v) then
      RgbChars(v, 5);
      Some(v)
    else None
  }

  lemma RgbChars(v: string, n: nat)
    requires (n == 4 && IsRgb(v)) || (n == 5 && IsRgba(v))
    ensures forall i :: 0 <= i < |v| ==> IsColorChar(v[i])
  {
    if n == 4 {
      RgbOnlyChars(v);
    } else {
      RgbaChars(v);
    }
  }

  lemma RgbOnlyChars(v: string)
    requires IsRgb(v)
    ensures forall i :: 0 <= i < |v| ==> IsColorChar(v[i])
  {
    var c := Components(v, 4, 3).value;
    PrefixChars(v, 4);
    CloseChars(v, c);
    assert forall i :: 4 <= i < c ==> IsColorChar(v[i]);
  }

  lemma RgbaChars(v: string)
    requires IsRgba(v)
    ensures forall i :: 0 <= i < |v| ==> IsColorChar(v[i])
  {
    var c := RgbaComma(v);
    RgbaPartsChars(v, c);
  }

  /** The parts of an `rgba(` colour: the prefix, three components ending at `c`, a comma, the alpha. */
  predicate RgbaShape(v: string, c: nat) {
    |v| >= 5 && ToLower(v[..5]) == "rgba("
    && Components(v, 5, 3) == Some(c) && c < |v| && v[c] == ','
    && AlphaCloseAt(v, SkipSpaces(v, c + 1))
  }

  /** Where the comma before the alpha value of an `rgba(` colour is. */
  lemma RgbaComma(v: string) returns (c: nat)
    requires IsRgba(v)
    ensures RgbaShape(v, c)
  {
    c := Components(v, 5, 3).value;
  }

  lemma RgbaPartsChars(v: string, c: nat)
    requires RgbaShape(v, c)
    ensures forall i :: 0 <= i < |v| ==> IsColorChar(v[i])
  {
    var a := SkipSpaces(v, c + 1);
    assert forall i :: 0 <= i < 5 ==> IsColorChar(v[i]) by {
      PrefixChars(v, 5);
    }
    assert forall k :: a <= k < |v| ==> IsColorChar(v[k]) by {
      AlphaChars(v, a);
    }
    ColorRuns(v, 5, c, a);
  }

  /** Glues the character classes of the runs an `rgba(` colour is made of. */
  lemma ColorRuns(v: string, p: nat, c: nat, a: nat)
    requires p <= c < a <= |v| && v[c] == ','
    requires forall i :: 0 <= i < p ==> IsColorChar(v[i])
    requires forall k :: p <= k < c ==> IsDigit(v[k]) || IsSpace(v[k], Js) || v[k] == ','
    requires forall k :: c + 1 <= k < a ==> IsSpace(v[k], Js)
    requires forall k :: a <= k < |v| ==> IsColorChar(v[k])
    ensures forall i :: 0 <= i < |v| ==> IsColorChar(v[i])
  {
  }

  lemma PrefixChars(v: string, n: nat)
    requires n <= |v| && (ToLower(v[..n]) == "rgb(" || ToLower(v[..n]) == "rgba(")
    ensures forall i :: 0 <= i < n ==> IsColorChar(v[i])
  {
    forall i | 0 <= i < n ensures IsColorChar(v[i]) {
      assert ToLower(v[..n])[i] == ToLowerChar(v[..n][i]);
    }
  }

  lemma CloseChars(v: string, i: nat)
    requires i <= |v| && CloseAt(v, i)
    ensures forall k :: i <= k < |v| ==> IsColorChar(v[k])
  {
  }

  lemma AlphaChars(v: string, i: nat)
    requires i <= |v| && AlphaCloseAt(v, i)
    ensures forall k :: i <= k < |v| ==> IsColorChar(v[k])
  {
    if i < |v| && (v[i] == '0' || v[i] == '1') && CloseAt(v, i + 1) {
      CloseChars(v, i + 1);
    } else {
      var d := if i < |v| && v[i] == '0' then i + 1 else i;
      CloseChars(v, DigitsEnd(v, d + 1));
    }
  }

  /** `javascript:alert(1)` is not a colour. */
  lemma ScriptIsNotAColor()
    ensures SanitizeColor("javascript:alert(1)").None?
  {
    var v := "javascript:alert(1)";
    TrimIdentity(v, Js);
    assert v[10] == ':';
    assert !IsColorName(v);
    assert ToLower(v[..4]) != "rgb(" by { assert ToLower(v[..4])[0] == 'j'; }
    assert ToLower(v[..5]) != "rgba(" by { assert ToLower(v[..5])[0] == 'j'; }
  }

  /**
   * `Number.parseInt(value, 10)`: leading white space skipped, an optional
   * sign, then the longest run of decimal digits; NaN (None) when there is
   * none.
   */
  function ParseInt(value: string): (r: Option<int>)
  {
    var t := TrimStart(value, Js);
    var neg := |t| > 0 && t[0] == '-';
    var body := if |t| > 0 && (t[0] == '-' || t[0] == '+') then t[1..] else t;
    var d := DigitRun(body);
    var n: int := DigitsValue(d);
    if d == [] then None else Some(if neg then -n else n)
  }

  /** Printing a natural number and parsing it back gives the number. */
  lemma ParseIntOfNatToString(n: nat)
    ensures ParseInt(NatToString(n)) == Some(n)
  {
    var s := NatToString(n);
    assert !IsSpace(s[0], Js) && s[0] != '-' && s[0] != '+' by { assert IsDigit(s[0]); }
    assert TrimStart(s, Js) == s;
    assert DigitRun(s) == s by {
      DigitRunAppend(s, []);
      assert s + [] == s;
    }
    DigitsValueOfNatToString(n);
  }

  /** The legacy HTML font sizes 1 to 7, in pixels. */
  function HtmlSizePx(n: int): (r: Option<nat>)
    ensures r.Some? <==> 1 <= n <= 7
    ensures r.Some? ==> r.value in {10, 13, 16, 18, 24, 32, 48}
  {
    if n == 1 then Some(10)
    else if n == 2 then Some(13)
    else if n == 3 then Some(16)
    else if n == 4 then Some(18)
    else if n == 5 then Some(24)
    else if n == 6 then Some(32)
    else if n == 7 then Some(48)
    else None
  }

  /** `fontSizeFromHtmlFontSize`: the pixel size of a parsed size 1 to 7, nothing otherwise. */
  function FontSizeFromHtml(value: string): (r: Option<nat>)
    ensures r.Some? ==> r.value in {10, 13, 16, 18, 24, 32, 48}
    ensures r.Some? <==> ParseInt(value).Some? && 1 <= ParseInt(value).value <= 7
  {
    match ParseInt(value)
    case None => None
    case Some(n) => HtmlSizePx(n)
  }

  /** Sizes written as plain numbers map to the table; others give nothing. */
  lemma FontSizeOfNumber(n: nat)
    ensures FontSizeFromHtml(NatToString(n)) == HtmlSizePx(n)
  {
    ParseIntOfNatToString(n);
  }

  /** `value.replace(/[<>]/g, '').replace(/["']/g, '')`. */
  function DropUnsafe(s: string): (r: string)
    ensures forall c :: c in r ==> c in s && c != '<' && c != '>' && c != '"' && c != '\''
  {
    if s == [] then []
    else (if s[0] in "<>\"'" then [] else [s[0]]) + DropUnsafe(s[1..])
  }

  /**
   * `sanitizeFontFamily`: unsafe characters dropped and the rest trimmed;
   * nothing when that is empty, otherwise at most its first 100 characters.
   */
  function SanitizeFontFamily(value: string): (r: Option<string>)
    ensures r.None? <==> Trim(DropUnsafe(value), Js) == ""
    ensures r.Some? ==> 1 <= |r.value| <= 100 && StartsWith(Trim(DropUnsafe(value), Js), r.value)
    ensures r.Some? ==> forall c :: c in r.value ==> c != '<' && c != '>' && c != '"' && c != '\''
  {
    var v := Trim(DropUnsafe(value), Js);
    if v == "" then None
    else if |v| > 100 then
      assert forall c :: c in v[..100] ==> c in v;
      Some(v[..100])
    else Some(v)
  }

  /** The declarations of the generated style, in the order colour, size, family. */
  function StyleParts(color: Option<string>, px: Option<nat>, face: Option<string>): seq<string> {
    (if color.Some? && color.value != "" then ["color:" + color.value] else [])
    + (if px.Some? && px.value != 0 then ["font-size:" + NatToString(px.value) + "px"] else [])
    + (if face.Some? && face.value != "" then ["font-family:" + face.value] else [])
  }

  /** A present, non-empty attribute value (JavaScript truthiness of a string). */
  function Truthy(v: Option<string>): Option<string> {
    if v.Some? && v.value != "" then v else None
  }

  function SpanColor(attrs: string): Option<string> {
    var raw := Truthy(PickAttr(attrs, "color"));
    if raw.Some? then SanitizeColor(raw.value) else None
  }

  function SpanSize(attrs: string): Option<nat> {
    var raw := Truthy(PickAttr(attrs, "size"));
    if raw.Some? then FontSizeFromHtml(raw.value) else None
  }

  function SpanFace(attrs: string): Option<string> {
    var raw := Truthy(PickAttr(attrs, "face"));
    if raw.Some? then SanitizeFontFamily(raw.value) else None
  }

  /** The ` style="…"` attribute, or nothing when no declaration survives. */
  function StyleAttr(parts: seq<string>): string {
    if |parts| > 0 then " style=\"" + Join(parts, ";") + "\"" else ""
  }

  /** `buildFontSpan`: the style built from the tag's attributes and the escaped inner text inside a `<span>`. */
  function BuildFontSpan(attrs: string, inner: string): (span: string)
    ensures StartsWith(span, "<span") && EndsWith(span, "</span>")
  {
    var parts := StyleParts(SpanColor(attrs), SpanSize(attrs), SpanFace(attrs));
    var span := "<span" + StyleAttr(parts) + ">" + EscapeAngleBrackets(inner) + "</span>";
    assert span[..5] == "<span";
    assert span[|span| - 7..] == "</span>";
    span
  }

  /**
   * A built span's only angle brackets are its own two tags, its only added
   * quotes delimit the style, and it opens with `<span` and closes with `</span>`.
   */
  lemma FontSpanCounts(attrs: string, inner: string)
    ensures var r := BuildFontSpan(attrs, inner);
      StartsWith(r, "<span") && EndsWith(r, "</span>")
      && Count(r, '<') == 2 && Count(r, '>') == 2
      && Count(r, '"') == Count(inner, '"') + (if |StyleParts(SpanColor(attrs), SpanSize(attrs), SpanFace(attrs))| > 0 then 2 else 0)
  {
    var parts := StyleParts(SpanColor(attrs), SpanSize(attrs), SpanFace(attrs));
    var style := StyleAttr(parts);
    var body := EscapeAngleBrackets(inner);
    StyleAttrSafe(parts, SpanColor(attrs), SpanSize(attrs), SpanFace(attrs));
    SpanCounts(style, body);
    SpanEnds("<span", style, ">", body, "</span>");
  }

  /** Five pieces joined start with the first and end with the last. */
  lemma SpanEnds(a: string, b: string, c: string, d: string, e: string)
    ensures StartsWith(a + b + c + d + e, a) && EndsWith(a + b + c + d + e, e)
  {
    var r := a + b + c + d + e;
    assert r[..|a|] == a;
    assert r[|r| - |e|..] == e;
  }

  /** Counting over five pieces joined is counting over each. */
  lemma CountFive(a: string, b: string, c: string, d: string, e: string, ch: char)
    ensures Count(a + b + c + d + e, ch) == Count(a, ch) + Count(b, ch) + Count(c, ch) + Count(d, ch) + Count(e, ch)
  {
    CountAppend(a, b, ch);
    CountAppend(a + b, c, ch);
    CountAppend(a + b + c, d, ch);
    CountAppend(a + b + c + d, e, ch);
  }

  lemma SpanCounts(style: string, body: string)
    requires '<' !in style && '>' !in style && '<' !in body && '>' !in body
    ensures var r := "<span" + style + ">" + body + "</span>";
      Count(r, '<') == 2 && Count(r, '>') == 2 && Count(r, '"') == Count(style, '"') + Count(body, '"')
  {
    CountAbsent(style, '<');
    CountAbsent(style, '>');
    CountAbsent(body, '<');
    CountAbsent(body, '>');
    OpenTagCounts("<span");
    CloseBracketCounts(">");
    EndTagCounts("</span>");
    CountFive("<span", style, ">", body, "</span>", '<');
    CountFive("<span", style, ">", body, "</span>", '>');
    CountFive("<span", style, ">", body, "</span>", '"');
  }

  /** The counts of brackets and quotes in the span's opening `<span`. */
  lemma OpenTagCounts(open: string)
    requires open == "<span"
    ensures Count(open, '<') == 1 && Count(open, '>') == 0 && Count(open, '"') == 0
  {
    var name := "span";
    LetterCounts(name);
    OpenCounts(open, name);
  }

  /** The counts of brackets and quotes in the `>` that ends the opening tag. */
  lemma CloseBracketCounts(close: string)
    requires close == ">"
    ensures Count(close, '<') == 0 && Count(close, '>') == 1 && Count(close, '"') == 0
  {
  }

  /** The counts of brackets and quotes in the closing `</span>`. */
  lemma EndTagCounts(end: string)
    requires end == "</span>"
    ensures Count(end, '<') == 1 && Count(end, '>') == 1 && Count(end, '"') == 0
  {
    var slashName := "/span";
    LetterCounts(slashName);
    var closing := "<" + slashName;
    OpenCounts(closing, slashName);
    CloseCounts(end, closing);
  }

  /** A text with one `<` and no `>` or quote, closed by `>`. */
  lemma CloseCounts(t: string, front: string)
    requires t == front + ">" && Count(front, '<') == 1 && Count(front, '>') == 0 && Count(front, '"') == 0
    ensures Count(t, '<') == 1 && Count(t, '>') == 1 && Count(t, '"') == 0
  {
    CountAppend(front, ">", '<');
    CountAppend(front, ">", '>');
    CountAppend(front, ">", '"');
  }

  /** A tag name has neither brackets nor quotes. */
  lemma LetterCounts(w: string)
    requires w == "span" || w == "/span"
    ensures Count(w, '<') == 0 && Count(w, '>') == 0 && Count(w, '"') == 0
  {
    CountAbsent(w, '<');
    CountAbsent(w, '>');
    CountAbsent(w, '"');
  }

  /** `<` followed by a name without brackets or quotes. */
  lemma OpenCounts(t: string, w: string)
    requires t == "<" + w && Count(w, '<') == 0 && Count(w, '>') == 0 && Count(w, '"') == 0
    ensures Count(t, '<') == 1 && Count(t, '>') == 0 && Count(t, '"') == 0
  {
    assert t[1..] == w;
  }

  /** No declaration text contains an angle bracket or a quote. */
  predicate SafeDecl(d: string) {
    '<' !in d && '>' !in d && '"' !in d
  }

  lemma {:induction false} JoinSafe(parts: seq<string>)
    requires forall i :: 0 <= i < |parts| ==> SafeDecl(parts[i])
    ensures SafeDecl(Join(parts, ";"))
    decreases |parts|
  {
    if |parts| > 1 {
      JoinSafe(parts[1..]);
    }
  }

  lemma NatToStringSafe(n: nat)
    ensures SafeDecl(NatToString(n))
  {
    var s := NatToString(n);
    assert forall i :: 0 <= i < |s| ==> IsDigit(s[i]);
  }

  lemma StyleAttrSafe(parts: seq<string>, color: Option<string>, px: Option<nat>, face: Option<string>)
    requires parts == StyleParts(color, px, face)
    requires color.Some? ==> forall i :: 0 <= i < |color.value| ==> IsColorChar(color.value[i])
    requires face.Some? ==> forall c :: c in face.value ==> c != '<' && c != '>' && c != '"'
    ensures '<' !in StyleAttr(parts) && '>' !in StyleAttr(parts)
    ensures Count(StyleAttr(parts), '"') == if |parts| > 0 then 2 else 0
  {
    StylePartsSafe(color, px, face);
    JoinSafe(parts);
    if |parts| > 0 {
      QuotedStyleCounts(Join(parts, ";"));
    }
  }

  lemma StylePartsSafe(color: Option<string>, px: Option<nat>, face: Option<string>)
    requires color.Some? ==> forall i :: 0 <= i < |color.value| ==> IsColorChar(color.value[i])
    requires face.Some? ==> forall c :: c in face.value ==> c != '<' && c != '>' && c != '"'
    ensures forall i :: 0 <= i < |StyleParts(color, px, face)| ==> SafeDecl(StyleParts(color, px, face)[i])
  {
    var a := if color.Some? && color.value != "" then ["color:" + color.value] else [];
    var b := if px.Some? && px.value != 0 then ["font-size:" + NatToString(px.value) + "px"] else [];
    var c := if face.Some? && face.value != "" then ["font-family:" + face.value] else [];
    if color.Some? {
      ColorSafe(color.value);
      JoinedSafe("color:", color.value);
    }
    if px.Some? {
      NatToStringSafe(px.value);
      JoinedSafe("font-size:", NatToString(px.value));
      JoinedSafe("font-size:" + NatToString(px.value), "px");
    }
    if face.Some? {
      JoinedSafe("font-family:", face.value);
    }
    SafeThree(a, b, c);
  }

  lemma ColorSafe(v: string)
    requires forall i :: 0 <= i < |v| ==> IsColorChar(v[i])
    ensures SafeDecl(v)
  {
    forall ch | ch in v ensures ch != '<' && ch != '>' && ch != '"' {
      var i :| 0 <= i < |v| && v[i] == ch;
      assert IsColorChar(v[i]);
    }
  }

  lemma JoinedSafe(x: string, y: string)
    requires SafeDecl(x) || x == "color:" || x == "font-size:" || x == "font-family:"
    requires SafeDecl(y)
    ensures SafeDecl(x + y)
  {
  }

  lemma SafeThree(a: seq<string>, b: seq<string>, c: seq<string>)
    requires forall i :: 0 <= i < |a| ==> SafeDecl(a[i])
    requires forall i :: 0 <= i < |b| ==> SafeDecl(b[i])
    requires forall i :: 0 <= i < |c| ==> SafeDecl(c[i])
    ensures forall i :: 0 <= i < |a + b + c| ==> SafeDecl((a + b + c)[i])
  {
  }

  lemma QuotedStyleCounts(j: string)
    requires SafeDecl(j)
    ensures var r := " style=\"" + j + "\"";
      '<' !in r && '>' !in r && Count(r, '"') == 2
  {
    CountAbsent(j, '"');
    CountAppend(" style=\"", j, '"');
    CountAppend(" style=\"" + j, "\"", '"');
  }

  // ---------------------------------------------------------------------------
  // The pipeline of `prepareMarkdownForPreview`
  // ---------------------------------------------------------------------------

  const CodePrefix: string := "@@XNOTE_CODE_"
  const FontPrefix: string := "@@XNOTE_FONT_"
  const TokenSuffix: string := "@@"

  /** The five global patterns the transform replaces, in the order it applies them. */
  datatype Pattern =
    | Fence      // /```[\s\S]*?```/g
    | InlineCode // /`[^`\n]+`/g
    | FontTag    // /<font\b([^>]*)>([\s\S]*?)<\/font>/gi
    | FontRef    // /@@XNOTE_FONT_(\d+)@@/g
    | CodeRef    // /@@XNOTE_CODE_(\d+)@@/g

  /** The end of the longest run from `i` of characters other than a backtick and a newline. */
  function CodeRunEnd(s: string, i: nat): (j: nat)
    requires i <= |s|
    ensures i <= j <= |s| && (j == |s| || s[j] == '`' || s[j] == '\n')
    decreases |s| - i
  {
    if i < |s| && s[i] != '`' && s[i] != '\n' then CodeRunEnd(s, i + 1) else i
  }

  /** The end of the longest run from `i` of characters other than `>` (`[^>]*`). */
  function TagRunEnd(s: string, i: nat): (j: nat)
    requires i <= |s|
    ensures i <= j <= |s| && (j == |s| || s[j] == '>')
    ensures forall k :: i <= k < j ==> s[k] != '>'
    decreases |s| - i
  {
    if i < |s| && s[i] != '>' then TagRunEnd(s, i + 1) else i
  }

  /** `prefix(\d+)@@` at the start of `t`. */
  function RefLen(t: string, prefix: string): (r: Option<nat>)
    ensures r.Some? ==> 0 < r.value <= |t|
  {
    if StartsWith(t, prefix) then
      var d := DigitRun(t[|prefix|..]);
      if |d| > 0 && OccursAt(t, TokenSuffix, |prefix| + |d|) then Some(|prefix| + |d| + 2) else None
    else None
  }

  /** "```" at the start of `t`, then anything, up to and including the next "```". */
  function FenceLen(t: string): (r: Option<nat>)
    ensures r.Some? ==> 0 < r.value <= |t|
  {
    if StartsWith(t, "```") then
      var j := IndexOfFrom(t, "```", 3);
      if j >= 0 then Some(j + 3) else None
    else None
  }

  /** A backtick, at least one character that is neither a backtick nor a newline, a backtick. */
  function InlineLen(t: string): (r: Option<nat>)
    ensures r.Some? ==> 0 < r.value <= |t|
  {
    if |t| > 0 && t[0] == '`' then
      var k := CodeRunEnd(t, 1);
      if k > 1 && k < |t| && t[k] == '`' then Some(k + 1) else None
    else None
  }

  /**
   * `<font` in any case not followed by a word character, any characters but `>`,
   * `>`, then anything up to and including the next `</font>` in any case.
   */
  function FontTagLen(t: string): (r: Option<nat>)
    ensures r.Some? ==> 0 < r.value <= |t|
  {
    if |t| >= 5 && ToLower(t[..5]) == "<font" && (|t| == 5 || !IsWordChar(t[5])) then
      var a := TagRunEnd(t, 5);
      if a < |t| then
        var j := IndexOfFrom(ToLower(t), "</font>", a + 1);
        if j >= 0 then Some(j + 7) else None
      else None
    else None
  }

  /** The length of the match of `p` at the very start of `t`, if it matches there. */
  function MatchLen(p: Pattern, t: string): (r: Option<nat>)
    ensures r.Some? ==> 0 < r.value <= |t|
  {
    match p
    case Fence => FenceLen(t)
    case InlineCode => InlineLen(t)
    case FontTag => FontTagLen(t)
    case FontRef => RefLen(t, FontPrefix)
    case CodeRef => RefLen(t, CodePrefix)
  }

  /** A piece of text a global replace leaves alone, or a match it replaces. */
  datatype Chunk = Plain(text: string) | Matched(text: string)

  function Flatten(cs: seq<Chunk>): string {
    if cs == [] then "" else cs[0].text + Flatten(cs[1..])
  }

  /**
   * A global replace scans left to right: where `p` matches, the text passed
   * over so far (`pending`) and the match become pieces and the scan goes on
   * after the match; elsewhere one character joins `pending`.
   */
  function Scan(p: Pattern, s: string, pending: string): (cs: seq<Chunk>)
    ensures |cs| > 0 && cs[|cs| - 1].Plain?
    decreases |s|
  {
    if s == [] then [Plain(pending)]
    else
      match MatchLen(p, s)
      case Some(n) => [Plain(pending), Matched(s[..n])] + Scan(p, s[n..], "")
      case None => Scan(p, s[1..], pending + [s[0]])
  }

  /** The text cut into the pieces a global replace of `p` sees. */
  function Chunks(p: Pattern, s: string): seq<Chunk> {
    Scan(p, s, "")
  }

  lemma FlattenPair(a: string, b: string, rest: seq<Chunk>)
    ensures Flatten([Plain(a), Matched(b)] + rest) == a + b + Flatten(rest)
  {
    var cs := [Plain(a), Matched(b)] + rest;
    assert cs[1..] == [Matched(b)] + rest;
    assert cs[1..][1..] == rest;
  }

  lemma {:induction false} ScanFlatten(p: Pattern, s: string, pending: string)
    ensures Flatten(Scan(p, s, pending)) == pending + s
    decreases |s|
  {
    if s == [] {
      assert [Plain(pending)][1..] == [];
      assert pending + "" == pending + s;
    } else if MatchLen(p, s).Some? {
      var n := MatchLen(p, s).value;
      ScanFlatten(p, s[n..], "");
      ScanFlattenAtMatch(p, s, pending, n);
    } else {
      assert Scan(p, s, pending) == Scan(p, s[1..], pending + [s[0]]);
      ScanFlatten(p, s[1..], pending + [s[0]]);
      assert pending + [s[0]] + s[1..] == pending + s;
    }
  }

  lemma ScanFlattenAtMatch(p: Pattern, s: string, pending: string, n: nat)
    requires s != [] && MatchLen(p, s) == Some(n)
    requires Flatten(Scan(p, s[n..], "")) == s[n..]
    ensures Flatten(Scan(p, s, pending)) == pending + s
  {
    ScanAtMatch(p, s, pending, n);
    FlattenJoin(pending, s[..n], s[n..], Scan(p, s[n..], ""));
    assert s[..n] + s[n..] == s;
  }

  lemma ScanAtMatch(p: Pattern, s: string, pending: string, n: nat)
    requires s != [] && MatchLen(p, s) == Some(n)
    ensures n <= |s|
    ensures Scan(p, s, pending) == [Plain(pending), Matched(s[..n])] + Scan(p, s[n..], "")
  {
  }

  lemma FlattenJoin(pending: string, a: string, b: string, rest: seq<Chunk>)
    requires Flatten(rest) == b
    ensures Flatten([Plain(pending), Matched(a)] + rest) == pending + (a + b)
  {
    FlattenPair(pending, a, rest);
  }

  /** Putting the pieces back together gives the text. */
  lemma ChunksFlatten(p: Pattern, s: string)
    ensures Flatten(Chunks(p, s)) == s
  {
    ScanFlatten(p, s, "");
  }

  /** The text `prefix + index + @@` that stands for the token with that index. */
  function Placeholder(prefix: string, index: nat): string {
    prefix + NatToString(index) + TokenSuffix
  }

  /** Each match replaced by a placeholder numbered after the tokens so far, the match appended to the tokens. */
  function Tokenize(cs: seq<Chunk>, tokens: seq<string>): (r: (string, seq<string>))
    ensures |r.1| >= |tokens| && r.1[..|tokens|] == tokens
    decreases |cs|
  {
    if cs == [] then ("", tokens)
    else
      match cs[0]
      case Plain(t) =>
        var (rest, ts) := Tokenize(cs[1..], tokens);
        (t + rest, ts)
      case Matched(t) =>
        var (rest, ts) := Tokenize(cs[1..], tokens + [t]);
        assert ts[..|tokens|] == (ts[..|tokens| + 1])[..|tokens|];
        (Placeholder(CodePrefix, |tokens|) + rest, ts)
  }

  /** The attribute text and the inner text of a matched font tag. */
  datatype FontToken = FontToken(attrs: string, inner: string)

  function FontGroups(t: string): FontToken {
    if |t| >= 5 then
      var a := TagRunEnd(t, 5);
      if a + 1 <= |t| - 7 then FontToken(t[5..a], t[a + 1..|t| - 7]) else FontToken("", "")
    else FontToken("", "")
  }

  /** Each font tag replaced by a placeholder, its groups appended to the tokens. */
  function TokenizeFonts(cs: seq<Chunk>, tokens: seq<FontToken>): (r: (string, seq<FontToken>))
    decreases |cs|
  {
    if cs == [] then ("", tokens)
    else
      match cs[0]
      case Plain(t) =>
        var (rest, ts) := TokenizeFonts(cs[1..], tokens);
        (t + rest, ts)
      case Matched(t) =>
        var (rest, ts) := TokenizeFonts(cs[1..], tokens + [FontGroups(t)]);
        (Placeholder(FontPrefix, |tokens|) + rest, ts)
  }

  /** The index a matched placeholder names. */
  function RefIndex(t: string): nat {
    if |t| >= 13 then DigitsValue(DigitRun(t[13..])) else 0
  }

  /** A font placeholder replaced by the span its token builds, or by '' when there is no such token. */
  function RenderFont(c: Chunk, tokens: seq<FontToken>): string {
    match c
    case Plain(t) => t
    case Matched(t) =>
      var i := RefIndex(t);
      if i < |tokens| then BuildFontSpan(tokens[i].attrs, tokens[i].inner) else ""
  }

  function RenderFonts(cs: seq<Chunk>, tokens: seq<FontToken>): string
    decreases |cs|
  {
    if cs == [] then "" else RenderFont(cs[0], tokens) + RenderFonts(cs[1..], tokens)
  }

  /** A code placeholder replaced by the code it stands for, or by '' when there is no such token. */
  function RestoreOne(c: Chunk, tokens: seq<string>): string {
    match c
    case Plain(t) => t
    case Matched(t) =>
      var i := RefIndex(t);
      if i < |tokens| then tokens[i] else ""
  }

  function RestoreCode(cs: seq<Chunk>, tokens: seq<string>): string
    decreases |cs|
  {
    if cs == [] then "" else RestoreOne(cs[0], tokens) + RestoreCode(cs[1..], tokens)
  }

  /** The text with code swapped out, and the swapped-out code: fences first, then inline spans. */
  function HideCode(markdown: string): (string, seq<string>) {
    var (s1, t1) := Tokenize(Chunks(Fence, markdown), []);
    Tokenize(Chunks(InlineCode, s1), t1)
  }

  /** The text after the font tags are replaced, everything else escaped, and the spans built, before code returns. */
  function RenderedBeforeCode(hidden: string): string {
    var (s3, fonts) := TokenizeFonts(Chunks(FontTag, hidden), []);
    RenderFonts(Chunks(FontRef, EscapeAngleBrackets(s3)), fonts)
  }

  /** `prepareMarkdownForPreview`: a note without code, markup or `@` is previewed as it is. */
  function PrepareMarkdownForPreview(markdown: string): (preview: string)
    ensures '`' !in markdown && '<' !in markdown && '>' !in markdown && '@' !in markdown ==> preview == markdown
  {
    PlainTextUnchanged(markdown);
    var (hidden, code) := HideCode(markdown);
    RestoreCode(Chunks(CodeRef, RenderedBeforeCode(hidden)), code)
  }

  // ---------------------------------------------------------------------------
  // Properties of the pipeline
  // ---------------------------------------------------------------------------

  /** The character every match of `p` starts with. */
  function Lead(p: Pattern): char {
    match p
    case Fence => '`'
    case InlineCode => '`'
    case FontTag => '<'
    case FontRef => '@'
    case CodeRef => '@'
  }

  lemma MatchStartsWithLead(p: Pattern, t: string)
    ensures MatchLen(p, t).Some? ==> |t| > 0 && t[0] == Lead(p)
  {
    if p == FontTag && MatchLen(p, t).Some? {
      assert ToLower(t[..5])[0] == ToLowerChar(t[0]);
    }
  }

  lemma {:induction false} ScanWithoutLead(p: Pattern, s: string, pending: string)
    requires Lead(p) !in s
    ensures Scan(p, s, pending) == [Plain(pending + s)]
    decreases |s|
  {
    if s == [] {
      assert pending + s == pending;
    } else {
      MatchStartsWithLead(p, s);
      ScanWithoutLead(p, s[1..], pending + [s[0]]);
      assert pending + [s[0]] + s[1..] == pending + s;
    }
  }

  /** A text without the leading character of `p` is a single piece that the replace leaves alone. */
  lemma ChunksWithoutLead(p: Pattern, s: string)
    requires Lead(p) !in s
    ensures Chunks(p, s) == [Plain(s)]
  {
    ScanWithoutLead(p, s, "");
    assert "" + s == s;
  }

  /** Scanning over text where `p` cannot start only adds that text to what is pending. */
  lemma {:induction false} ScanPassesOver(p: Pattern, t: string, x: string, pending: string)
    requires Lead(p) !in t
    ensures Scan(p, t + x, pending) == Scan(p, x, pending + t)
    decreases |t|
  {
    if t == [] {
      assert t + x == x && pending + t == pending;
    } else {
      var s := t + x;
      assert s[0] == t[0] && s[1..] == t[1..] + x;
      MatchStartsWithLead(p, s);
      ScanSkip(p, s, pending);
      ScanPassesOver(p, t[1..], x, pending + [t[0]]);
      AppendAssoc(pending, [t[0]], t[1..]);
      assert [t[0]] + t[1..] == t;
    }
  }

  lemma {:induction false} FlattenHas(cs: seq<Chunk>, i: nat, c: char)
    requires i < |cs| && c in cs[i].text
    ensures c in Flatten(cs)
    decreases i
  {
    if i > 0 {
      FlattenHas(cs[1..], i - 1, c);
    }
  }

  /** Every character of every piece comes from the text. */
  lemma ChunkCharsFromText(p: Pattern, s: string, i: nat, c: char)
    requires i < |Chunks(p, s)| && c in Chunks(p, s)[i].text
    ensures c in s
  {
    ChunksFlatten(p, s);
    FlattenHas(Chunks(p, s), i, c);
  }

  // The code round trip: restoring placeholders gives back what was swapped out.

  /** The code-restoring replace applied to a whole text. */
  function Restored(s: string, tokens: seq<string>): string {
    RestoreCode(Chunks(CodeRef, s), tokens)
  }

  lemma RestoreCodePair(a: string, b: string, rest: seq<Chunk>, tokens: seq<string>)
    ensures RestoreCode([Plain(a), Matched(b)] + rest, tokens)
      == a + RestoreCode([Matched(b)], tokens) + RestoreCode(rest, tokens)
  {
    var cs := [Plain(a), Matched(b)] + rest;
    assert cs[1..] == [Matched(b)] + rest;
    assert cs[1..][1..] == rest;
    assert [Matched(b)][1..] == [];
  }

  /** The index a code placeholder names is the index it was built with. */
  lemma RefIndexOfPlaceholder(prefix: string, n: nat, rest: string)
    requires |prefix| == 13
    ensures RefIndex(Placeholder(prefix, n) + rest) == n
  {
    var t := Placeholder(prefix, n) + rest;
    assert t[13..] == NatToString(n) + (TokenSuffix + rest);
    DigitRunAppend(NatToString(n), TokenSuffix + rest);
    DigitsValueOfNatToString(n);
  }

  lemma RefLenOfPlaceholder(prefix: string, n: nat, rest: string)
    requires |prefix| == 13
    ensures RefLen(Placeholder(prefix, n) + rest, prefix) == Some(|Placeholder(prefix, n)|)
  {
    var t := Placeholder(prefix, n) + rest;
    var d := NatToString(n);
    assert t[..|prefix|] == prefix;
    assert t[|prefix|..] == d + (TokenSuffix + rest);
    DigitRunAppend(d, TokenSuffix + rest);
    assert t[|prefix| + |d|..|prefix| + |d| + 2] == TokenSuffix;
  }

  /** A code placeholder at the front is replaced by its token, or by '' when there is none. */
  lemma RestoredPlaceholder(n: nat, x: string, tokens: seq<string>)
    ensures Restored(Placeholder(CodePrefix, n) + x, tokens)
      == (if n < |tokens| then tokens[n] else "") + Restored(x, tokens)
  {
    var ph := Placeholder(CodePrefix, n);
    var s := ph + x;
    RefLenOfPlaceholder(CodePrefix, n, x);
    assert s[..|ph|] == ph && s[|ph|..] == x;
    assert Chunks(CodeRef, s) == [Plain(""), Matched(ph)] + Chunks(CodeRef, x);
    RestoreCodePair("", ph, Chunks(CodeRef, x), tokens);
    RefIndexOfPlaceholder(CodePrefix, n, []);
    assert ph + [] == ph;
  }

  lemma RestoreCodeSingle(a: string, tokens: seq<string>)
    ensures RestoreCode([Plain(a)], tokens) == a
  {
    assert [Plain(a)][1..] == [];
    assert a + "" == a;
  }

  /** What is pending when the restoring scan starts comes out first, unchanged. */
  lemma {:induction false} RestoreScanPending(x: string, pending: string, tokens: seq<string>)
    ensures RestoreCode(Scan(CodeRef, x, pending), tokens) == pending + RestoreCode(Scan(CodeRef, x, ""), tokens)
    decreases |x|
  {
    if x == [] {
      RestoreCodeSingle(pending, tokens);
      RestoreCodeSingle("", tokens);
    } else {
      match MatchLen(CodeRef, x)
      case Some(n) =>
        var rest := Scan(CodeRef, x[n..], "");
        ScanAtMatch(CodeRef, x, pending, n);
        ScanAtMatch(CodeRef, x, "", n);
        RestoreCodePair(pending, x[..n], rest, tokens);
        RestoreCodePair("", x[..n], rest, tokens);
        AppendAssoc(pending, RestoreCode([Matched(x[..n])], tokens), RestoreCode(rest, tokens));
        assert "" + RestoreCode([Matched(x[..n])], tokens) == RestoreCode([Matched(x[..n])], tokens);
      case None =>
        var c := x[0];
        ScanSkip(CodeRef, x, pending);
        ScanSkip(CodeRef, x, "");
        assert "" + [c] == [c];
        RestoreScanPending(x[1..], pending + [c], tokens);
        RestoreScanPending(x[1..], [c], tokens);
        AppendAssoc(pending, [c], RestoreCode(Scan(CodeRef, x[1..], ""), tokens));
    }
  }

  lemma ScanSkip(p: Pattern, s: string, pending: string)
    requires s != [] && MatchLen(p, s).None?
    ensures Scan(p, s, pending) == Scan(p, s[1..], pending + [s[0]])
  {
  }

  /** Text without '@' in front of a code placeholder passes through unchanged. */
  lemma RestoredPlain(t: string, x: string, tokens: seq<string>)
    requires '@' !in t
    ensures Restored(t + x, tokens) == t + Restored(x, tokens)
  {
    ScanPassesOver(CodeRef, t, x, "");
    assert "" + t == t;
    RestoreScanPending(x, t, tokens);
  }

  lemma RestoredEmpty(tokens: seq<string>)
    ensures Restored("", tokens) == ""
  {
    RestoreCodeSingle("", tokens);
  }

  /** No plain piece holds an '@'. */
  ghost predicate PlainsWithoutAt(cs: seq<Chunk>) {
    forall i :: 0 <= i < |cs| && cs[i].Plain? ==> '@' !in cs[i].text
  }

  /**
   * Restoring a tokenized text gives back the pieces it was made from, with
   * any list of tokens that extends the one tokenizing produced.
   */
  lemma {:induction false} TokenizeThenRestore(cs: seq<Chunk>, tokens: seq<string>, all: seq<string>)
    requires PlainsWithoutAt(cs)
    requires |Tokenize(cs, tokens).1| <= |all| && all[..|Tokenize(cs, tokens).1|] == Tokenize(cs, tokens).1
    ensures Restored(Tokenize(cs, tokens).0, all) == Flatten(cs)
    decreases |cs|
  {
    if cs == [] {
      RestoredEmpty(all);
    } else {
      assert PlainsWithoutAt(cs[1..]) by {
        forall i | 0 <= i < |cs[1..]| && cs[1..][i].Plain?
          ensures '@' !in cs[1..][i].text
        {
          assert cs[1..][i] == cs[i + 1];
        }
      }
      match cs[0]
      case Plain(t) =>
        TokenizeThenRestore(cs[1..], tokens, all);
        RestoredPlain(t, Tokenize(cs[1..], tokens).0, all);
      case Matched(t) =>
        var ts := Tokenize(cs[1..], tokens + [t]).1;
        TokenizeThenRestore(cs[1..], tokens + [t], all);
        assert ts[..|tokens| + 1] == tokens + [t];
        assert all[|tokens|] == ts[|tokens|] == t;
        RestoredPlaceholder(|tokens|, Tokenize(cs[1..], tokens + [t]).0, all);
    }
  }

  /**
   * One placeholder pass is undone by the restoring pass: for a text without
   * '@', swapping the matches of `p` for code placeholders and restoring them
   * gives back the text.
   */
  lemma CodeRoundTrip(p: Pattern, s: string)
    requires '@' !in s
    ensures Restored(Tokenize(Chunks(p, s), []).0, Tokenize(Chunks(p, s), []).1) == s
  {
    var cs := Chunks(p, s);
    forall i | 0 <= i < |cs| && cs[i].Plain?
      ensures '@' !in cs[i].text
    {
      if '@' in cs[i].text {
        ChunkCharsFromText(p, s, i, '@');
      }
    }
    var all := Tokenize(cs, []).1;
    assert all[..|all|] == all;
    TokenizeThenRestore(cs, [], all);
    ChunksFlatten(p, s);
  }

  // Only the spans the transform builds survive as markup.

  /** Every '<' opens or closes a span. */
  ghost predicate TagSafe(s: string) {
    forall i :: 0 <= i < |s| && s[i] == '<' ==> OccursAt(s, "<span", i) || OccursAt(s, "</span>", i)
  }

  lemma OccursAtLeft(a: string, b: string, x: string, i: nat)
    requires OccursAt(a, x, i)
    ensures OccursAt(a + b, x, i)
  {
    assert (a + b)[i..i + |x|] == a[i..i + |x|];
  }

  lemma OccursAtRight(a: string, b: string, x: string, i: nat)
    requires OccursAt(b, x, i)
    ensures OccursAt(a + b, x, |a| + i)
  {
    assert (a + b)[|a| + i..|a| + i + |x|] == b[i..i + |x|];
  }

  lemma TagSafeAppend(a: string, b: string)
    requires TagSafe(a) && TagSafe(b)
    ensures TagSafe(a + b)
  {
    forall i | 0 <= i < |a + b| && (a + b)[i] == '<'
      ensures OccursAt(a + b, "<span", i) || OccursAt(a + b, "</span>", i)
    {
      if i < |a| {
        assert a[i] == '<';
        if OccursAt(a, "<span", i) {
          OccursAtLeft(a, b, "<span", i);
        } else {
          OccursAtLeft(a, b, "</span>", i);
        }
      } else {
        var j := i - |a|;
        assert b[j] == '<';
        if OccursAt(b, "<span", j) {
          OccursAtRight(a, b, "<span", j);
        } else {
          OccursAtRight(a, b, "</span>", j);
        }
      }
    }
  }

  lemma TagSafeWithoutAngle(s: string)
    requires '<' !in s
    ensures TagSafe(s)
  {
  }

  /** A built span is safe markup: its only '<' characters open and close it. */
  lemma FontSpanTagSafe(attrs: string, inner: string)
    ensures TagSafe(BuildFontSpan(attrs, inner))
  {
    var parts := StyleParts(SpanColor(attrs), SpanSize(attrs), SpanFace(attrs));
    var style := StyleAttr(parts);
    var body := EscapeAngleBrackets(inner);
    StyleAttrSafe(parts, SpanColor(attrs), SpanSize(attrs), SpanFace(attrs));
    assert BuildFontSpan(attrs, inner) == "<span" + style + ">" + body + "</span>";
    SpanShapeTagSafe(style, body);
  }

  lemma SpanShapeTagSafe(style: string, body: string)
    requires '<' !in style && '<' !in body
    ensures TagSafe("<span" + style + ">" + body + "</span>")
  {
    assert OccursAt("<span", "<span", 0);
    assert OccursAt("</span>", "</span>", 0);
    TagSafeAppend("<span", style);
    TagSafeAppend("<span" + style, ">");
    TagSafeAppend("<span" + style + ">", body);
    TagSafeAppend("<span" + style + ">" + body, "</span>");
  }

  /** One rendered piece is safe, balanced markup when a plain piece has no angle brackets. */
  lemma RenderFontSafe(c: Chunk, tokens: seq<FontToken>)
    requires c.Plain? ==> '<' !in c.text && '>' !in c.text
    ensures TagSafe(RenderFont(c, tokens))
    ensures Count(RenderFont(c, tokens), '<') == Count(RenderFont(c, tokens), '>')
  {
    match c
    case Plain(t) =>
      CountAbsent(t, '<');
      CountAbsent(t, '>');
    case Matched(t) =>
      var i := RefIndex(t);
      if i < |tokens| {
        FontSpanTagSafe(tokens[i].attrs, tokens[i].inner);
        FontSpanCounts(tokens[i].attrs, tokens[i].inner);
      }
  }

  /** Rendering font placeholders over text without angle brackets gives safe, balanced markup. */
  lemma {:induction false} RenderFontsSafe(cs: seq<Chunk>, tokens: seq<FontToken>)
    requires forall i :: 0 <= i < |cs| && cs[i].Plain? ==> '<' !in cs[i].text && '>' !in cs[i].text
    ensures TagSafe(RenderFonts(cs, tokens))
    ensures Count(RenderFonts(cs, tokens), '<') == Count(RenderFonts(cs, tokens), '>')
    decreases |cs|
  {
    if cs != [] {
      assert forall i :: 0 <= i < |cs[1..]| ==> cs[1..][i] == cs[i + 1];
      RenderFontsSafe(cs[1..], tokens);
      RenderFontSafe(cs[0], tokens);
      var head, rest := RenderFont(cs[0], tokens), RenderFonts(cs[1..], tokens);
      TagSafeAppend(head, rest);
      CountAppend(head, rest, '<');
      CountAppend(head, rest, '>');
    }
  }

  /**
   * Before code returns, the only markup in the text is the spans built from
   * font tags: every '<' opens or closes a span, and the angle brackets
   * balance.
   */
  lemma RenderedIsTagSafe(hidden: string)
    ensures TagSafe(RenderedBeforeCode(hidden))
    ensures Count(RenderedBeforeCode(hidden), '<') == Count(RenderedBeforeCode(hidden), '>')
  {
    var (s3, fonts) := TokenizeFonts(Chunks(FontTag, hidden), []);
    var e := EscapeAngleBrackets(s3);
    var cs := Chunks(FontRef, e);
    forall i | 0 <= i < |cs| && cs[i].Plain?
      ensures '<' !in cs[i].text && '>' !in cs[i].text
    {
      if '<' in cs[i].text {
        ChunkCharsFromText(FontRef, e, i, '<');
      }
      if '>' in cs[i].text {
        ChunkCharsFromText(FontRef, e, i, '>');
      }
    }
    RenderFontsSafe(cs, fonts);
  }

  /** Text with no code, no markup and no '@' passes through every step of the preview unchanged. */
  lemma PlainTextUnchanged(markdown: string)
    ensures '`' !in markdown && '<' !in markdown && '>' !in markdown && '@' !in markdown ==>
      HideCode(markdown) == (markdown, []) && RenderedBeforeCode(markdown) == markdown
      && RestoreCode(Chunks(CodeRef, markdown), []) == markdown
  {
    if '`' !in markdown && '<' !in markdown && '>' !in markdown && '@' !in markdown {
      ChunksWithoutLead(Fence, markdown);
      assert Tokenize([Plain(markdown)], []) == (markdown, []) by {
        assert [Plain(markdown)][1..] == [];
        assert markdown + "" == markdown;
      }
      ChunksWithoutLead(InlineCode, markdown);
      assert HideCode(markdown) == (markdown, []);
      ChunksWithoutLead(FontTag, markdown);
      assert TokenizeFonts([Plain(markdown)], []) == (markdown, []) by {
        assert [Plain(markdown)][1..] == [];
        assert markdown + "" == markdown;
      }
      EscapeIdentity(markdown);
      ChunksWithoutLead(FontRef, markdown);
      assert RenderFonts([Plain(markdown)], []) == markdown by {
        assert [Plain(markdown)][1..] == [];
        assert markdown + "" == markdown;
      }
      assert RenderedBeforeCode(markdown) == markdown;
      ChunksWithoutLead(CodeRef, markdown);
      assert RestoreCode([Plain(markdown)], []) == markdown by {
        assert [Plain(markdown)][1..] == [];
        assert markdown + "" == markdown;
      }
    }
  }
}
