/**
 * The text rewriting `MermaidDiagram.tsx` applies to a diagram's source before
 * rendering: a leading `%%{init: …}%%` directive is found, its configuration
 * object has keys upserted by regular-expression replacement, any further
 * leading directives are stripped, and a single rebuilt directive is put first.
 */
module MermaidDirective {
  import opened Common
  import opened Strings

  const InitOpen: string := "%%{init:"
  const InitClose: string := "}%%"

  /** Length of `text.match(/^\s*\/)[0]`: the leading JavaScript white space. */
  function Lead(s: string): (n: nat)
    ensures n <= |s|
  {
    if |s| > 0 && IsSpace(s[0], Js) then 1 + Lead(s[1..]) else 0
  }

  /** The leading white space is white space, and the character after it is not. */
  lemma {:induction false} LeadSpec(s: string)
    ensures forall i :: 0 <= i < Lead(s) ==> IsSpace(s[i], Js)
    ensures Lead(s) == |s| || !IsSpace(s[Lead(s)], Js)
  {
    if |s| > 0 && IsSpace(s[0], Js) {
      LeadSpec(s[1..]);
    }
  }

  /** The leading white space is determined by where the first other character is. */
  lemma {:induction false} LeadIs(s: string, m: nat)
    requires m <= |s|
    requires forall i :: 0 <= i < m ==> IsSpace(s[i], Js)
    requires m == |s| || !IsSpace(s[m], Js)
    ensures Lead(s) == m
  {
    if m > 0 {
      LeadIs(s[1..], m - 1);
    }
  }

  /** A text that starts with `k` white-space characters has at least `k` of them leading. */
  lemma {:induction false} LeadAtLeast(s: string, k: nat)
    requires k <= |s|
    requires forall i :: 0 <= i < k ==> IsSpace(s[i], Js)
    ensures Lead(s) >= k
  {
    if k > 0 {
      LeadAtLeast(s[1..], k - 1);
    }
  }

  /** Leading white space stays leading whatever follows it. */
  lemma {:induction false} LeadPrefix(s: string, k: nat, u: string)
    requires k <= Lead(s)
    ensures Lead(s[..k] + u) >= k
  {
    if k > 0 {
      assert (s[..k] + u)[1..] == s[1..][..k - 1] + u;
      LeadPrefix(s[1..], k - 1, u);
    }
  }

  /**
   * The position of the `}%%` closing a directive at the start of `s` (after
   * white space), or None when `s` does not start with `%%{init:` there or no
   * `}%%` follows.
   */
  function DirectiveEnd(s: string): (r: Option<nat>)
    ensures r.Some? ==> Lead(s) + |InitOpen| <= r.value && OccursAt(s, InitClose, r.value)
    ensures r.Some? <==> StartsWith(s[Lead(s)..], InitOpen) && IndexOfFrom(s, InitClose, Lead(s)) >= 0
  {
    var idx := Lead(s);
    if !StartsWith(s[idx..], InitOpen) then None
    else
      var end := IndexOfFrom(s, InitClose, idx);
      if end < 0 then None
      else
        assert s[idx..idx + |InitOpen|] == InitOpen;
        assert s[end] == s[end..end + |InitClose|][0] == '}';
        assert forall i :: idx <= i < idx + |InitOpen| ==> s[i] == InitOpen[i - idx] != '}';
        Some(end)
  }

  // ---------------------------------------------------------------------------
  // stripLeadingInitDirectives
  // ---------------------------------------------------------------------------

  /** The text with every leading complete directive cut out, the leading white space kept. */
  function Stripped(s: string): (r: string)
    ensures DirectiveEnd(r).None?
    decreases |s|
  {
    match DirectiveEnd(s)
    case None => s
    case Some(end) => Stripped(CutDirective(s, end))
  }

  /** The text with the directive that closes at `end` cut out, the leading white space kept. */
  function CutDirective(s: string, end: nat): string
    requires Lead(s) <= end && end + |InitClose| <= |s|
  {
    s[..Lead(s)] + s[end + |InitClose|..]
  }

  /**
   * Stripping keeps the leading white space of the text, and what follows the
   * leading white space of the result is a suffix of the original text.
   */
  lemma {:induction false} StrippedKeeps(s: string)
    ensures Lead(s) <= Lead(Stripped(s)) <= |Stripped(s)| <= |s|
    ensures Stripped(s)[..Lead(s)] == s[..Lead(s)]
    ensures EndsWith(s, Stripped(s)[Lead(Stripped(s))..])
    decreases |s|
  {
    match DirectiveEnd(s)
    case None =>
    case Some(end) =>
      var next := CutDirective(s, end);
      StripOnce(s, end);
      StrippedKeeps(next);
      CutKeeps(s, Lead(s), end, next, Stripped(next), Lead(next), Lead(Stripped(next)));
  }

  /** One directive cut out: what `Stripped` recurs on, with the leading white space kept. */
  lemma StripOnce(s: string, end: nat)
    requires DirectiveEnd(s) == Some(end)
    ensures Stripped(s) == Stripped(CutDirective(s, end))
    ensures |CutDirective(s, end)| < |s| && Lead(CutDirective(s, end)) >= Lead(s)
  {
    LeadPrefix(s, Lead(s), s[end + |InitClose|..]);
  }

  /**
   * One cut of a directive keeps what `StrippedKeeps` promises: `idx`, `ln` and
   * `lr` are the leading white space of `s`, of the text after the cut and of
   * its stripped form `r`.
   */
  lemma CutKeeps(s: string, idx: nat, end: nat, next: string, r: string, ln: nat, lr: nat)
    requires idx <= end && end + |InitClose| <= |s|
    requires next == s[..idx] + s[end + |InitClose|..]
    requires idx <= ln <= lr <= |r| <= |next|
    requires r[..ln] == next[..ln]
    requires EndsWith(next, r[lr..])
    ensures |r| <= |s|
    ensures r[..idx] == s[..idx]
    ensures EndsWith(s, r[lr..])
  {
    assert r[..idx] == r[..ln][..idx];
    assert next[..idx] == s[..idx];
    var t := r[lr..];
    assert |t| <= |next| - idx;
    assert next[|next| - |t|..] == s[|s| - |t|..];
  }

  /** `stripLeadingInitDirectives`: cut leading directives until none is complete. */
  method StripLeadingInitDirectives(text: string) returns (out: string)
    ensures out == Stripped(text)
  {
    out := text;
    while true
      invariant Stripped(out) == Stripped(text)
      decreases |out|
    {
      var idx := Lead(out);
      if !StartsWith(out[idx..], InitOpen) {
        return;
      }
      var end := IndexOfFrom(out, InitClose, idx);
      if end == -1 {
        return;
      }
      assert DirectiveEnd(out) == Some(end);
      assert out[..idx] + out[end + |InitClose|..] == CutDirective(out, end);
      out := out[..idx] + out[end + |InitClose|..];
    }
  }

  // ---------------------------------------------------------------------------
  // upsertInitKey
  // ---------------------------------------------------------------------------

  /** The keys the component passes: identifiers, so the pattern built from them is literal. */
  predicate PlainKey(key: string) {
    |key| > 0 && forall i :: 0 <= i < |key| ==> IsWordChar(key[i])
  }

  /** A line terminator, after which `^` matches in a multiline regular expression. */
  predicate IsLineTerminator(c: char) {
    c == '\n' || c == '\r' || c == '\U{2028}' || c == '\U{2029}'
  }

  /** Length of `("key"|'key'|key)` at the start of `t`, alternatives tried in order. */
  function SpellingLen(t: string, key: string): (r: Option<nat>)
    requires PlainKey(key)
    ensures r.Some? ==> 0 < r.value <= |t|
  {
    if StartsWith(t, "\"" + key + "\"") then Some(|key| + 2)
    else if StartsWith(t, "'" + key + "'") then Some(|key| + 2)
    else if StartsWith(t, key) then Some(|key|)
    else None
  }

  /** Length of the longest run at the start of `t` of characters other than `,` and `}`. */
  function ValueRun(t: string): (n: nat)
    ensures n <= |t|
  {
    if t == [] || t[0] == ',' || t[0] == '}' then 0 else 1 + ValueRun(t[1..])
  }

  /**
   * `("key"|'key'|key)\s*:\s*([^,}]+)` matched at the start of `t`: the end of
   * the key spelling and the end of the match. White space is itself outside
   * `[,}]`, so the match after the colon is the whole run up to `,`, `}` or the
   * end, and it needs at least one character.
   */
  function EntryAt(t: string, key: string): (r: Option<(nat, nat)>)
    requires PlainKey(key)
    ensures r.Some? ==> 0 < r.value.0 < r.value.1 <= |t|
  {
    match SpellingLen(t, key)
    case None => None
    case Some(k) =>
      var w := Lead(t[k..]);
      if k + w < |t| && t[k + w] == ':' then
        var v := ValueRun(t[k + w + 1..]);
        if v > 0 then Some((k, k + w + 1 + v)) else None
      else None
  }

  /** Which of the two patterns: `([,{]\s*)…` or `(^\s*)…` with the `m` flag. */
  datatype Anchor = AfterDelimiter | AtLineStart

  /** A match found: where it starts, where the key spelling ends, where the match ends. */
  datatype Hit = Hit(at: nat, keyEnd: nat, end: nat)

  /** The fixed part of the first group matches at `i`: `[,{]`, or a line start under the `m` flag. */
  predicate AnchorAt(s: string, anchor: Anchor, i: nat)
    requires i <= |s|
  {
    match anchor
    case AfterDelimiter => i < |s| && (s[i] == ',' || s[i] == '{')
    case AtLineStart => i == 0 || IsLineTerminator(s[i - 1])
  }

  /** Where the first group's `\s*` starts. */
  function AnchorEnd(anchor: Anchor, i: nat): nat {
    if anchor == AfterDelimiter then i + 1 else i
  }

  /** The pattern for `key` matched at position `i` of `s`. */
  function MatchAt(s: string, key: string, anchor: Anchor, i: nat): (r: Option<Hit>)
    requires PlainKey(key) && i <= |s|
    ensures r.Some? ==> r.value.at == i < r.value.keyEnd < r.value.end <= |s|
  {
    if !AnchorAt(s, anchor, i) then None
    else EntryHit(s, key, i, AnchorEnd(anchor, i) + Lead(s[AnchorEnd(anchor, i)..]))
  }

  /** The entry found after the first group, which ends at `b`, as a match starting at `i`. */
  function EntryHit(s: string, key: string, i: nat, b: nat): (r: Option<Hit>)
    requires PlainKey(key) && i <= b <= |s|
    ensures r.Some? ==> r.value.at == i < r.value.keyEnd < r.value.end <= |s|
  {
    var entry := EntryAt(s[b..], key);
    if entry.None? then None else Some(Hit(i, b + entry.value.0, b + entry.value.1))
  }

  /** What a match at `i` is made of: the anchor, white space up to `b`, and an entry at `b`. */
  lemma MatchAtParts(s: string, key: string, anchor: Anchor, i: nat, h: Hit) returns (b: nat, k: nat, e: nat)
    requires PlainKey(key) && i <= |s| && MatchAt(s, key, anchor, i) == Some(h)
    ensures AnchorAt(s, anchor, i) && AnchorEnd(anchor, i) <= b <= |s|
    ensures b == AnchorEnd(anchor, i) + Lead(s[AnchorEnd(anchor, i)..])
    ensures EntryAt(s[b..], key) == Some((k, e)) && h.keyEnd == b + k && h.end == b + e
  {
    var a := AnchorEnd(anchor, i);
    b := a + Lead(s[a..]);
    assert EntryHit(s, key, i, b) == Some(h);
    var entry := EntryAt(s[b..], key);
    k, e := entry.value.0, entry.value.1;
    assert entry.value == (k, e);
  }

  /** The parts of a match make a match. */
  lemma MatchAtFrom(s: string, key: string, anchor: Anchor, i: nat, b: nat)
    requires PlainKey(key) && i <= |s| && AnchorAt(s, anchor, i) && AnchorEnd(anchor, i) <= b <= |s|
    requires b == AnchorEnd(anchor, i) + Lead(s[AnchorEnd(anchor, i)..])
    requires EntryAt(s[b..], key).Some?
    ensures MatchAt(s, key, anchor, i).Some?
  {
  }

  /** The leftmost match at or after position `i` (`RegExp.prototype.exec` without `g`). */
  function FindEntry(s: string, key: string, anchor: Anchor, i: nat): (r: Option<Hit>)
    requires PlainKey(key) && i <= |s|
    ensures r.Some? ==> i <= r.value.at < r.value.keyEnd < r.value.end <= |s|
    decreases |s| - i
  {
    var m := MatchAt(s, key, anchor, i);
    if m.Some? then m
    else if i == |s| then None
    else FindEntry(s, key, anchor, i + 1)
  }

  /** What the search finds is a match. */
  lemma {:induction false} FindEntryHit(s: string, key: string, anchor: Anchor, i: nat)
    requires PlainKey(key) && i <= |s| && FindEntry(s, key, anchor, i).Some?
    ensures MatchAt(s, key, anchor, FindEntry(s, key, anchor, i).value.at) == FindEntry(s, key, anchor, i)
    decreases |s| - i
  {
    if MatchAt(s, key, anchor, i).None? {
      FindEntryHit(s, key, anchor, i + 1);
    }
  }

  /** A match anywhere at or after `i` is found: the search misses nothing. */
  lemma {:induction false} FindEntryFinds(s: string, key: string, anchor: Anchor, i: nat, j: nat)
    requires PlainKey(key) && i <= j <= |s| && MatchAt(s, key, anchor, j).Some?
    ensures FindEntry(s, key, anchor, i).Some?
    decreases j - i
  {
    if MatchAt(s, key, anchor, i).None? {
      FindEntryFinds(s, key, anchor, i + 1, j);
    }
  }

  /** Either pattern finds the key in `s`. */
  predicate Present(s: string, key: string)
    requires PlainKey(key)
  {
    FindEntry(s, key, AfterDelimiter, 0).Some? || FindEntry(s, key, AtLineStart, 0).Some?
  }

  /** The trimmed text starts with `{` and ends with `}`. */
  predicate BraceWrapped(t: string) {
    StartsWith(t, "{") && EndsWith(t, "}")
  }

  /** `/^\{\s*\}$/`: an object with nothing but white space inside. */
  predicate IsEmptyObject(t: string) {
    |t| >= 2 && t[0] == '{' && t[|t| - 1] == '}' && forall i :: 0 < i < |t| - 1 ==> IsSpace(t[i], Js)
  }

  /** `config.replace(re, (_m, p1, p2) => p1 + p2 + ": " + value)`: the value after the key is replaced. */
  function ReplaceValue(config: string, h: Hit, value: string): string
    requires h.keyEnd <= h.end <= |config|
  {
    config[..h.keyEnd] + ": " + value + config[h.end..]
  }

  /**
   * The absent-key branch: a brace-wrapped trimmed text gets `"key": value`
   * before its final `}` (after `, ` unless the object is empty); any other
   * text is returned unchanged.
   */
  function InsertEntry(config: string, key: string, value: string): string {
    var t := Trim(config, Js);
    if !BraceWrapped(t) then config
    else t[..|t| - 1] + (InsertPiece(t, key, value) + "}")
  }

  /** The entry template `"key": value`. */
  function KeyEntry(key: string, value: string): string {
    "\"" + key + "\": " + value
  }

  /** What goes before the final `}`: the entry, after `, ` unless the object is empty. */
  function InsertPiece(t: string, key: string, value: string): string {
    if IsEmptyObject(t) then KeyEntry(key, value) else ", " + KeyEntry(key, value)
  }

  /** A closing brace after the entry's value belongs to the value's text. */
  lemma KeyEntryAppend(key: string, value: string)
    ensures KeyEntry(key, value) + "}" == KeyEntry(key, value + "}")
  {
    AppendAssoc("\"" + key + "\": ", value, "}");
  }

  /** `upsertInitKey(config, key, value)`. */
  function UpsertInitKey(config: string, key: string, value: string): string
    requires PlainKey(key)
  {
    match FindEntry(config, key, AfterDelimiter, 0)
    case Some(h) => ReplaceValue(config, h, value)
    case None =>
      match FindEntry(config, key, AtLineStart, 0)
      case Some(h) => ReplaceValue(config, h, value)
      case None => InsertEntry(config, key, value)
  }

  /** The spelling found at the start of `u` is found again in any text that begins the same way. */
  lemma SpellingPrefix(u: string, v: string, key: string, k: nat)
    requires PlainKey(key) && SpellingLen(u, key) == Some(k)
    requires k <= |v| && u[..k] == v[..k]
    ensures SpellingLen(v, key) == Some(k)
  {
    assert u[0] == v[0];
    if StartsWith(u, "\"" + key + "\"") {
      assert v[..k] == "\"" + key + "\"";
    } else if StartsWith(u, "'" + key + "'") {
      assert v[..k] == "'" + key + "'";
      assert v[0] != '"';
    } else {
      assert u[0] == key[0];
      assert IsWordChar(key[0]);
      assert v[..|key|] == key;
    }
  }

  /** A key spelling directly followed by `: ` is an entry. */
  lemma EntryAfterColon(u: string, key: string, k: nat)
    requires PlainKey(key) && SpellingLen(u, key) == Some(k)
    requires k + 1 < |u| && u[k] == ':' && u[k + 1] == ' '
    ensures EntryAt(u, key).Some?
  {
    LeadIs(u[k..], 0);
    assert u[k + 1..][0] == ' ';
  }

  /** `"key": rest` is an entry for `key`. */
  lemma QuotedEntry(key: string, rest: string)
    requires PlainKey(key)
    ensures EntryAt(KeyEntry(key, rest), key).Some? && KeyEntry(key, rest)[0] == '"'
  {
    var u := KeyEntry(key, rest);
    assert StartsWith(u, "\"" + key + "\"") by {
      assert u[..|key| + 2] == "\"" + key + "\"";
    }
    assert u[|key| + 2] == ':' && u[|key| + 3] == ' ';
    EntryAfterColon(u, key, |key| + 2);
  }

  /** After the value of a found entry is replaced, the pattern still matches where it did. */
  lemma ReplaceKeepsMatch(s: string, key: string, anchor: Anchor, h: Hit, value: string)
    requires PlainKey(key) && h.at <= |s| && MatchAt(s, key, anchor, h.at) == Some(h)
    ensures h.at <= |ReplaceValue(s, h, value)|
    ensures MatchAt(ReplaceValue(s, h, value), key, anchor, h.at).Some?
  {
    var i := h.at;
    var b, k, e := MatchAtParts(s, key, anchor, i, h);
    EntryAtParts(s[b..], key, k, e);
    var r := ReplaceValue(s, h, value);
    ReplacedText(s, h.keyEnd, h.end, value);
    ReplaceKeepsParts(s, r, key, anchor, i, AnchorEnd(anchor, i), b, k, h.keyEnd);
    MatchAtFrom(r, key, anchor, i, b);
  }

  /** What an entry at the start of `t` is made of (the part the replacement keeps). */
  lemma EntryAtParts(t: string, key: string, k: nat, e: nat)
    requires PlainKey(key) && EntryAt(t, key) == Some((k, e))
    ensures SpellingLen(t, key) == Some(k)
  {
  }

  /** The replacement keeps the text up to the key spelling's end and puts `: ` after it. */
  lemma ReplacedText(s: string, keyEnd: nat, end: nat, value: string)
    requires keyEnd <= end <= |s|
    ensures var r := s[..keyEnd] + ": " + value + s[end..];
      keyEnd + 2 <= |r| && r[..keyEnd] == s[..keyEnd] && r[keyEnd] == ':' && r[keyEnd + 1] == ' '
  {
  }

  /** The replaced text `r` keeps the anchor, the white space and the key spelling, and an entry follows. */
  lemma ReplaceKeepsParts(s: string, r: string, key: string, anchor: Anchor, i: nat, a: nat, b: nat, k: nat,
                          keyEnd: nat)
    requires PlainKey(key) && i <= |s| && AnchorAt(s, anchor, i) && a == AnchorEnd(anchor, i)
    requires a <= b && b == a + Lead(s[a..]) && keyEnd == b + k && keyEnd <= |s|
    requires SpellingLen(s[b..], key) == Some(k)
    requires keyEnd + 2 <= |r| && r[..keyEnd] == s[..keyEnd] && r[keyEnd] == ':' && r[keyEnd + 1] == ' '
    ensures i <= |r| && AnchorAt(r, anchor, i) && b == a + Lead(r[a..]) && EntryAt(r[b..], key).Some?
  {
    AnchorKept(s, r, anchor, i, keyEnd);
    SpellingStartsSolid(s[b..], key, k);
    assert r[a..][..b - a + 1] == r[..keyEnd][a..b + 1];
    assert s[..keyEnd][a..b + 1] == s[a..][..b - a + 1];
    assert r[a..][..b - a + 1] == s[a..][..b - a + 1];
    LeadAgree(s[a..], r[a..], b - a);
    SpellingKept(s, r, key, b, k);
  }

  /** The anchor before the key is kept when the text up to past it is. */
  lemma AnchorKept(s: string, r: string, anchor: Anchor, i: nat, keyEnd: nat)
    requires i < keyEnd <= |s| && keyEnd <= |r| && r[..keyEnd] == s[..keyEnd] && AnchorAt(s, anchor, i)
    ensures AnchorAt(r, anchor, i)
  {
    assert r[i] == r[..keyEnd][i];
    if i > 0 {
      assert r[i - 1] == r[..keyEnd][i - 1];
    }
  }

  /** The key spelling ending at `keyEnd`, now followed by `: `, makes an entry. */
  lemma SpellingKept(s: string, r: string, key: string, b: nat, k: nat)
    requires PlainKey(key) && b + k + 2 <= |r| && b <= |s| && SpellingLen(s[b..], key) == Some(k)
    requires b + k <= |s| && r[..b + k] == s[..b + k] && r[b + k] == ':' && r[b + k + 1] == ' '
    ensures EntryAt(r[b..], key).Some?
  {
    assert r[b..][..k] == r[..b + k][b..] == s[..b + k][b..] == s[b..][..k];
    SpellingPrefix(s[b..], r[b..], key, k);
    EntryAfterColon(r[b..], key, k);
  }

  /** A key spelling starts with a quote or a word character, never with white space. */
  lemma SpellingStartsSolid(t: string, key: string, k: nat)
    requires PlainKey(key) && SpellingLen(t, key) == Some(k)
    ensures 0 < |t| && !IsSpace(t[0], Js)
  {
    if StartsWith(t, "\"" + key + "\"") {
      assert t[..|key| + 2][0] == '"';
    } else if StartsWith(t, "'" + key + "'") {
      assert t[..|key| + 2][0] == '\'';
    } else {
      assert t[..|key|][0] == key[0];
      assert IsWordChar(key[0]);
    }
  }

  /** Two texts that agree up to and including the first character after the leading white space lead alike. */
  lemma {:induction false} LeadAgree(x: string, y: string, n: nat)
    requires n == Lead(x) && n < |x| && n < |y| && x[..n + 1] == y[..n + 1]
    ensures Lead(y) == n
  {
    assert x[0] == y[0];
    if n > 0 {
      assert x[1..][..n] == y[1..][..n];
      LeadAgree(x[1..], y[1..], n - 1);
    }
  }

  /** The absent-key branch of a brace-wrapped text leaves an entry for the key. */
  lemma InsertMakesEntry(config: string, key: string, value: string)
    requires PlainKey(key) && BraceWrapped(Trim(config, Js))
    ensures FindEntry(InsertEntry(config, key, value), key, AfterDelimiter, 0).Some?
  {
    var t := Trim(config, Js);
    if IsEmptyObject(t) {
      EmptyGetsEntry(t, key, value);
    } else {
      OtherGetsEntry(t[..|t| - 1], key, value);
    }
  }

  lemma EmptyGetsEntry(t: string, key: string, value: string)
    requires PlainKey(key) && IsEmptyObject(t)
    ensures FindEntry(t[..|t| - 1] + (KeyEntry(key, value) + "}"), key, AfterDelimiter, 0).Some?
  {
    KeyEntryAppend(key, value);
    var quoted := KeyEntry(key, value + "}");
    var r := t[..|t| - 1] + quoted;
    QuotedEntry(key, value + "}");
    InsertIntoEmpty(t, quoted);
    MatchAtFrom(r, key, AfterDelimiter, 0, |t| - 1);
    FindEntryFinds(r, key, AfterDelimiter, 0, 0);
  }

  lemma OtherGetsEntry(front: string, key: string, value: string)
    requires PlainKey(key)
    ensures FindEntry(front + ((", " + KeyEntry(key, value)) + "}"), key, AfterDelimiter, 0).Some?
  {
    AppendAssoc(", ", KeyEntry(key, value), "}");
    KeyEntryAppend(key, value);
    var quoted := KeyEntry(key, value + "}");
    var r := front + (", " + quoted);
    QuotedEntry(key, value + "}");
    InsertAfterEntries(front, quoted);
    MatchAtFrom(r, key, AfterDelimiter, |front|, |front| + 2);
    FindEntryFinds(r, key, AfterDelimiter, 0, |front|);
  }

  /** In `{` + white space + `"key": …`, the white space runs up to the quote. */
  lemma InsertIntoEmpty(t: string, quoted: string)
    requires IsEmptyObject(t) && |quoted| > 0 && quoted[0] == '"'
    ensures var r := t[..|t| - 1] + quoted;
      r[0] == '{' && Lead(r[1..]) == |t| - 2 && r[|t| - 1..] == quoted
  {
    var r := t[..|t| - 1] + quoted;
    var u := r[1..];
    assert forall i :: 0 <= i < |t| - 2 ==> u[i] == t[i + 1];
    assert u[|t| - 2] == '"';
    LeadIs(u, |t| - 2);
  }

  /** In `…, "key": …`, one space leads up to the quote. */
  lemma InsertAfterEntries(front: string, quoted: string)
    requires |quoted| > 0 && quoted[0] == '"'
    ensures var r := front + (", " + quoted);
      r[|front|] == ',' && Lead(r[|front| + 1..]) == 1 && r[|front| + 2..] == quoted
  {
    var r := front + (", " + quoted);
    assert r[|front| + 1..] == " " + quoted;
    LeadIs(r[|front| + 1..], 1);
  }

  /** Every key spelling contains the key itself, bare or after the opening quote. */
  lemma SpellingContainsKey(t: string, key: string, k: nat)
    requires PlainKey(key) && SpellingLen(t, key) == Some(k)
    ensures OccursAt(t, key, 0) || OccursAt(t, key, 1)
  {
    if StartsWith(t, "\"" + key + "\"") {
      assert t[1..1 + |key|] == t[..|key| + 2][1..1 + |key|];
    } else if StartsWith(t, "'" + key + "'") {
      assert t[1..1 + |key|] == t[..|key| + 2][1..1 + |key|];
    }
  }

  /** A match contains an occurrence of the key. */
  lemma MatchHasKey(s: string, key: string, anchor: Anchor, i: nat)
    requires PlainKey(key) && i <= |s|
    ensures MatchAt(s, key, anchor, i).Some? ==> exists p: nat :: OccursAt(s, key, p)
  {
    if MatchAt(s, key, anchor, i).Some? {
      var b, k, e := MatchAtParts(s, key, anchor, i, MatchAt(s, key, anchor, i).value);
      EntryAtParts(s[b..], key, k, e);
      SpellingContainsKey(s[b..], key, k);
      if OccursAt(s[b..], key, 0) {
        OccursInSuffix(s, key, b, 0);
      } else {
        OccursInSuffix(s, key, b, 1);
      }
    }
  }

  /** An occurrence in a suffix is an occurrence in the whole text. */
  lemma OccursInSuffix(s: string, key: string, b: nat, d: nat)
    requires b <= |s| && OccursAt(s[b..], key, d)
    ensures OccursAt(s, key, b + d)
  {
    assert s[b + d..b + d + |key|] == s[b..][d..d + |key|];
  }

  /** Neither pattern finds a key that does not occur in the text. */
  lemma {:induction false} AbsentNotFound(s: string, key: string, anchor: Anchor, i: nat)
    requires PlainKey(key) && i <= |s|
    requires forall p: nat :: !OccursAt(s, key, p)
    ensures FindEntry(s, key, anchor, i).None?
    decreases |s| - i
  {
    MatchHasKey(s, key, anchor, i);
    if i < |s| {
      AbsentNotFound(s, key, anchor, i + 1);
    }
  }

  /** A key that does not occur in the text goes to the absent-key branch. */
  lemma UpsertAbsent(config: string, key: string, value: string)
    requires PlainKey(key)
    requires forall p: nat :: !OccursAt(config, key, p)
    ensures UpsertInitKey(config, key, value) == InsertEntry(config, key, value)
  {
    AbsentNotFound(config, key, AfterDelimiter, 0);
    AbsentNotFound(config, key, AtLineStart, 0);
  }

  /**
   * A key absent from a trimmed `{…}` text is inserted before the final
   * brace, after `, ` unless the object is empty.
   */
  lemma UpsertNewKey(t: string, key: string, value: string)
    requires PlainKey(key) && |t| >= 2 && t[0] == '{' && t[|t| - 1] == '}'
    requires forall p: nat :: !OccursAt(t, key, p)
    ensures UpsertInitKey(t, key, value)
      == t[..|t| - 1] + ((if IsEmptyObject(t) then KeyEntry(key, value) else ", " + KeyEntry(key, value)) + "}")
  {
    UpsertAbsent(t, key, value);
    InsertIntoTrimmed(t, key, value);
  }

  lemma InsertIntoTrimmed(t: string, key: string, value: string)
    requires |t| >= 2 && t[0] == '{' && t[|t| - 1] == '}'
    ensures InsertEntry(t, key, value)
      == t[..|t| - 1] + ((if IsEmptyObject(t) then KeyEntry(key, value) else ", " + KeyEntry(key, value)) + "}")
  {
    TrimIdentity(t, Js);
    assert BraceWrapped(t);
  }

  /** A text lacking one of the characters of `sub` has no occurrence of `sub`. */
  lemma CharAbsent(s: string, sub: string, j: nat)
    requires j < |sub| && sub[j] !in s
    ensures forall p: nat :: !OccursAt(s, sub, p)
  {
    forall p: nat
      ensures !OccursAt(s, sub, p)
    {
      if p + |sub| <= |s| {
        assert s[p..p + |sub|][j] == s[p + j];
      }
    }
  }

  /**
   * After an upsert the key is present exactly when it was present before or
   * the trimmed text is brace-wrapped; otherwise the text is left as it was.
   */
  lemma UpsertPresent(config: string, key: string, value: string)
    requires PlainKey(key)
    ensures Present(UpsertInitKey(config, key, value), key) <==> Present(config, key) || BraceWrapped(Trim(config, Js))
    ensures !Present(config, key) && !BraceWrapped(Trim(config, Js)) ==> UpsertInitKey(config, key, value) == config
  {
    var r := UpsertInitKey(config, key, value);
    match FindEntry(config, key, AfterDelimiter, 0)
    case Some(h) =>
      FindEntryHit(config, key, AfterDelimiter, 0);
      ReplaceKeepsMatch(config, key, AfterDelimiter, h, value);
      FindEntryFinds(r, key, AfterDelimiter, 0, h.at);
    case None =>
      match FindEntry(config, key, AtLineStart, 0)
      case Some(h) =>
        FindEntryHit(config, key, AtLineStart, 0);
        ReplaceKeepsMatch(config, key, AtLineStart, h, value);
        FindEntryFinds(r, key, AtLineStart, 0, h.at);
      case None =>
        if BraceWrapped(Trim(config, Js)) {
          InsertMakesEntry(config, key, value);
        }
  }
}

module MermaidInit {
  import opened Common
  import opened Strings
  import opened MermaidDirective

  // ---------------------------------------------------------------------------
  // buildInitDirective
  // ---------------------------------------------------------------------------

  /** One entry of the overrides record; `None` stands for a value that is not a string. */
  datatype Override = Override(key: string, value: Option<string>)

  predicate PlainKeys(ov: seq<Override>) {
    forall i :: 0 <= i < |ov| ==> PlainKey(ov[i].key)
  }

  /** The configuration text to start from: the trimmed text, or `{}` when that is empty. */
  function InitConfig(existing: string): (r: string)
    ensures r != ""
  {
    var c := Trim(existing, Js);
    if c == "" then "{}" else c
  }

  /** One round of the loop: upsert a string value, skip anything else. */
  function ApplyOne(config: string, o: Override): string
    requires PlainKey(o.key)
  {
    match o.value
    case None => config
    case Some(v) => UpsertInitKey(config, o.key, v)
  }

  /** The upserts of the overrides, in order. */
  function ApplyOverrides(config: string, ov: seq<Override>): string
    requires PlainKeys(ov)
    decreases |ov|
  {
    if ov == [] then config else ApplyOverrides(ApplyOne(config, ov[0]), ov[1..])
  }

  /** The overrides whose value is a string, in order. */
  function StringValued(ov: seq<Override>): (r: seq<Override>)
    ensures |r| <= |ov|
    ensures forall i :: 0 <= i < |r| ==> r[i].value.Some? && r[i] in ov
  {
    if ov == [] then []
    else if ov[0].value.None? then StringValued(ov[1..])
    else [ov[0]] + StringValued(ov[1..])
  }

  /** Overrides whose value is not a string change nothing. */
  lemma {:induction false} SkipsNonStrings(config: string, ov: seq<Override>)
    requires PlainKeys(ov)
    ensures PlainKeys(StringValued(ov))
    ensures ApplyOverrides(config, ov) == ApplyOverrides(config, StringValued(ov))
    decreases |ov|
  {
    if ov != [] {
      SkipsNonStrings(ApplyOne(config, ov[0]), ov[1..]);
      if ov[0].value.Some? {
        var r := StringValued(ov);
        assert r[0] == ov[0] && r[1..] == StringValued(ov[1..]);
      }
    }
  }

  /** `buildInitDirective(existing)`: the upserted configuration inside `%%{init: …}%%`. */
  function Directive(existing: string, ov: seq<Override>): (d: string)
    requires PlainKeys(ov)
    ensures StartsWith(d, InitOpen + " ") && EndsWith(d, InitClose)
  {
    var d := InitOpen + " " + ApplyOverrides(InitConfig(existing), ov) + InitClose;
    assert d[..|InitOpen + " "|] == InitOpen + " ";
    assert d[|d| - |InitClose|..] == InitClose;
    d
  }

  /** `buildInitDirective`, with its loop over the overrides. */
  method BuildInitDirective(existing: string, ov: seq<Override>) returns (d: string)
    requires PlainKeys(ov)
    ensures d == Directive(existing, ov)
  {
    var config := Trim(existing, Js);
    if config == "" {
      config := "{}";
    }
    for i := 0 to |ov|
      invariant ApplyOverrides(config, ov[i..]) == ApplyOverrides(InitConfig(existing), ov)
    {
      assert ov[i..][1..] == ov[i + 1..];
      match ov[i].value {
        case None =>
        case Some(v) =>
          config := UpsertInitKey(config, ov[i].key, v);
      }
    }
    assert ov[|ov|..] == [];
    d := InitOpen + " " + config + InitClose;
  }

  /** The overrides `codeForRender` applies: the hand-drawn look and seed 1. */
  const DisplayOverrides: seq<Override> :=
    [Override("look", Some("\"handDrawn\"")), Override("handDrawnSeed", Some("1"))]

  /** From an empty configuration the display overrides give exactly the two entries, look first. */
  lemma DisplayConfigFromEmpty(existing: string)
    requires Trim(existing, Js) == "" || Trim(existing, Js) == "{}"
    ensures PlainKeys(DisplayOverrides)
    ensures ApplyOverrides(InitConfig(existing), DisplayOverrides)
      == "{\"look\": \"handDrawn\", \"handDrawnSeed\": 1}"
  {
    var c0 := InitConfig(existing);
    var look, seed := DisplayOverrides[0], DisplayOverrides[1];
    ApplyTwo(c0, look, seed);
    LookIntoEmpty(c0, look.key, look.value.value);
    SeedAfterLook(ApplyOne(c0, look), seed.key, seed.value.value);
  }

  /** Two overrides are applied one after the other. */
  lemma ApplyTwo(c: string, o1: Override, o2: Override)
    requires PlainKey(o1.key) && PlainKey(o2.key)
    ensures PlainKeys([o1, o2])
    ensures ApplyOverrides(c, [o1, o2]) == ApplyOne(ApplyOne(c, o1), o2)
  {
    assert [o1, o2][1..] == [o2] && [o2][1..] == [];
    assert ApplyOverrides(c, [o1, o2]) == ApplyOverrides(ApplyOne(c, o1), [o2]);
    assert ApplyOverrides(ApplyOne(c, o1), [o2]) == ApplyOverrides(ApplyOne(ApplyOne(c, o1), o2), []);
  }

  /** Step one: `look` goes into the empty object. */
  lemma LookIntoEmpty(c0: string, key: string, value: string)
    requires c0 == "{}" && key == "look" && value == "\"handDrawn\""
    ensures UpsertInitKey(c0, key, value) == "{\"look\": \"handDrawn\"}"
  {
    EmptyBraces(c0);
    assert c0[..|c0| - 1] + (KeyEntry(key, value) + "}") == "{\"look\": \"handDrawn\"}";
    CharAbsent(c0, key, 0);
    UpsertNewKey(c0, key, value);
  }

  lemma EmptyBraces(c0: string)
    requires c0 == "{}"
    ensures IsEmptyObject(c0)
  {
  }

  /** Step two: `handDrawnSeed` goes after the `look` entry. */
  lemma SeedAfterLook(c1: string, key: string, value: string)
    requires c1 == "{\"look\": \"handDrawn\"}" && key == "handDrawnSeed" && value == "1"
    ensures UpsertInitKey(c1, key, value) == "{\"look\": \"handDrawn\", \"handDrawnSeed\": 1}"
  {
    NotEmptyBraces(c1);
    assert c1[..|c1| - 1] + ((", " + KeyEntry(key, value)) + "}") == "{\"look\": \"handDrawn\", \"handDrawnSeed\": 1}";
    assert key[9] == 'S' && 'S' !in c1;
    CharAbsent(c1, key, 9);
    UpsertNewKey(c1, key, value);
  }

  lemma NotEmptyBraces(c1: string)
    requires c1 == "{\"look\": \"handDrawn\"}"
    ensures !IsEmptyObject(c1)
  {
    assert !IsSpace(c1[1], Js);
  }


}
