/**
 * How the backend (`src-tauri/src/lib.rs`) finds the image references of a
 * note: `trim_wrapping`, `extract_candidate_paths` with its two scanning
 * loops, the reference filter of the unused-image scan and
 * `normalize_ref_path`. Byte offsets are character offsets: the text is
 * taken to be ASCII, where the two agree and lower-casing keeps lengths.
 */
module BackendRefs {
  import opened Common
  import opened Strings

  /** Starts and ends with `<`/`>`, `"`/`"` or `'`/`'` (a single quote character counts). */
  predicate IsWrapped(s: string) {
    |s| >= 1 &&
    ((s[0] == '<' && s[|s| - 1] == '>') || (s[0] == '"' && s[|s| - 1] == '"')
     || (s[0] == '\'' && s[|s| - 1] == '\''))
  }

  /** No white space at either end. */
  predicate Trimmed(s: string) {
    s == [] || (!IsSpace(s[0], Rust) && !IsSpace(s[|s| - 1], Rust))
  }

  /**
   * `trim_wrapping` as written: trim, drop one wrapping pair, trim again. A
   * lone `"` or `'` slices `[1..0]`, which panics; that is the only panic,
   * and otherwise the result is the corrected one.
   */
  function TrimWrappingAsWritten(s: string): (r: Result<string>)
    ensures r.Err? <==> Trim(s, Rust) == "\"" || Trim(s, Rust) == "'"
    ensures r.Ok? ==> r.value == TrimWrapping(s)
  {
    var out := Trim(s, Rust);
    if IsWrapped(out) then
      if |out| < 2 then Err("slice index starts at 1 but ends at 0")
      else Ok(Trim(out[1..|out| - 1], Rust))
    else Ok(out)
  }

  /** `trim_wrapping` with a lone quote character taken as an empty value. */
  function TrimWrapping(s: string): (r: string)
    ensures Trimmed(r)
  {
    var out := Trim(s, Rust);
    if IsWrapped(out) then
      if |out| < 2 then "" else Trim(out[1..|out| - 1], Rust)
    else out
  }

  /** Unwrapping adds no character. */
  lemma TrimWrappingAvoids(s: string, ch: char)
    requires ch !in s
    ensures ch !in TrimWrapping(s)
  {
    var out := Trim(s, Rust);
    assert ch !in out;
    if IsWrapped(out) && |out| >= 2 {
      assert ch !in out[1..|out| - 1];
    }
  }

  /** Exactly one wrapping pair is removed, with the white space inside it. */
  lemma UnwrapOnce(x: string, open: char, close: char)
    requires (open == '<' && close == '>') || (open == '"' && close == '"') || (open == '\'' && close == '\'')
    ensures TrimWrapping([open] + x + [close]) == Trim(x, Rust)
  {
    var s := [open] + x + [close];
    WrappedShape(x, open, close);
    TrimIdentity(s, Rust);
    UnwrapTrimmed(s);
  }

  lemma WrappedShape(x: string, open: char, close: char)
    requires (open == '<' && close == '>') || (open == '"' && close == '"') || (open == '\'' && close == '\'')
    ensures var s := [open] + x + [close];
      |s| >= 2 && IsWrapped(s) && s[1..|s| - 1] == x
      && !IsSpace(s[0], Rust) && !IsSpace(s[|s| - 1], Rust)
  {
    var s := [open] + x + [close];
    assert s[0] == open && s[|s| - 1] == close;
    assert s[1..|s| - 1] == x;
  }

  lemma UnwrapTrimmed(s: string)
    requires |s| >= 2 && Trim(s, Rust) == s && IsWrapped(s)
    ensures TrimWrapping(s) == Trim(s[1..|s| - 1], Rust)
  {
    var out := Trim(s, Rust);
    assert out == s;
    assert IsWrapped(out) && |out| >= 2;
  }

  /** A trimmed value that is not wrapped passes unchanged. */
  lemma PlainUnchanged(s: string)
    requires s != [] && Trimmed(s) && !IsWrapped(s)
    ensures TrimWrapping(s) == s
  {
    TrimIdentity(s, Rust);
  }

  predicate NoSpace(s: string) {
    forall i :: 0 <= i < |s| ==> !IsSpace(s[i], Rust)
  }

  /** The leading run of characters up to the first white space. */
  function TakeToken(s: string): (r: string)
    ensures NoSpace(r) && StartsWith(s, r)
    ensures |r| == |s| || IsSpace(s[|r|], Rust)
  {
    if s != [] && !IsSpace(s[0], Rust) then [s[0]] + TakeToken(s[1..]) else []
  }

  /** `s.split_whitespace().next()`. */
  function FirstToken(s: string): (r: Option<string>)
    ensures r.Some? ==> r.value != [] && NoSpace(r.value)
  {
    var t := TrimStart(s, Rust);
    if t == [] then None else Some(TakeToken(t))
  }

  /** There is no token exactly when the text is all white space. */
  lemma FirstTokenNone(s: string)
    ensures FirstToken(s).None? <==> forall i :: 0 <= i < |s| ==> IsSpace(s[i], Rust)
  {
  }

  /** White space alone trims to nothing. */
  lemma BlankTrimsEmpty(s: string)
    ensures (forall i :: 0 <= i < |s| ==> IsSpace(s[i], Rust)) ==> Trim(s, Rust) == [] && TrimWrapping(s) == []
  {
  }

  /** A pushed value: a non-empty result only. */
  function Keep(w: string): seq<string> {
    if w != [] then [w] else []
  }

  /** Every value is non-empty and has no white space at either end. */
  predicate Values(r: seq<string>) {
    forall k :: 0 <= k < |r| ==> r[k] != [] && Trimmed(r[k])
  }

  lemma KeepValues(w: string, rest: seq<string>)
    requires Trimmed(w) && Values(rest)
    ensures Values(Keep(w) + rest)
  {
    var r := Keep(w) + rest;
    forall k | 0 <= k < |r|
      ensures r[k] != [] && Trimmed(r[k])
    {
      if k < |Keep(w)| {
        assert r[k] == w;
      } else {
        assert r[k] == rest[k - |Keep(w)|];
      }
    }
  }

  /** The token a link value is taken from: the first white-space token, or the whole text. */
  function LinkToken(raw: string): string {
    match FirstToken(raw) case Some(t) => t case None => raw
  }

  /** The token an unquoted `src=` value is taken from: the first white-space token, or nothing. */
  function SrcToken(rest: string): string {
    match FirstToken(rest) case Some(t) => t case None => ""
  }

  /**
   * What one step of a scanning loop finds: the text between `](` and `)`,
   * the text between the quotes of `src="…"`, or the text after an unquoted
   * `src=`.
   */
  datatype Found = Link(raw: string) | Quoted(raw: string) | Unquoted(rest: string)

  /** The text handed to `trim_wrapping`. */
  function Token(f: Found): string {
    match f
    case Link(raw) => LinkToken(raw)
    case Quoted(raw) => raw
    case Unquoted(rest) => SrcToken(rest)
  }

  /** The candidate a step contributes, before the emptiness test. */
  function Value(f: Found): (r: string)
    ensures Trimmed(r)
  {
    TrimWrapping(Token(f))
  }

  /** The values of the steps, in order, without the empty ones. */
  function Unwrapped(fs: seq<Found>): (r: seq<string>)
    ensures Values(r)
  {
    if fs == [] then []
    else
      KeepValues(Value(fs[0]), Unwrapped(fs[1..]));
      Keep(Value(fs[0])) + Unwrapped(fs[1..])
  }

  lemma UnwrappedCons(f: Found, fs: seq<Found>)
    ensures Unwrapped([f] + fs) == Keep(Value(f)) + Unwrapped(fs)
  {
    assert ([f] + fs)[1..] == fs;
  }

  lemma {:induction false} UnwrappedConcat(a: seq<Found>, b: seq<Found>)
    ensures Unwrapped(a + b) == Unwrapped(a) + Unwrapped(b)
  {
    if a != [] {
      var f, rest := a[0], a[1..];
      assert a + b == [f] + (rest + b);
      assert a == [f] + rest;
      UnwrappedCons(f, rest + b);
      UnwrappedConcat(rest, b);
      UnwrappedCons(f, rest);
      AppendAssoc(Keep(Value(f)), Unwrapped(rest), Unwrapped(b));
    } else {
      assert a + b == b;
    }
  }

  /** One pass of the first loop at index `i`: a `](` there with a later `)`, or nothing. */
  datatype LinkHit = NoLink | LinkAt(found: Found, next: nat)

  function LinkScan(c: string, i: nat): (h: LinkHit)
    requires i + 2 < |c|
    ensures h.LinkAt? ==> i + 2 < h.next <= |c|
  {
    if c[i] == ']' && c[i + 1] == '(' && IndexOfFrom(c, ")", i + 2) >= 0 then
      var e := IndexOfFrom(c, ")", i + 2);
      LinkAt(Link(c[i + 2..e]), e + 1)
    else NoLink
  }

  /** The first loop of `extract_candidate_paths`, from index `i`: each `](` with a later `)`. */
  function LinksFound(c: string, i: nat): seq<Found>
    decreases |c| - i
  {
    if i + 2 >= |c| then []
    else
      match LinkScan(c, i)
      case NoLink => LinksFound(c, i + 1)
      case LinkAt(f, next) => [f] + LinksFound(c, next)
  }

  /** The position of the first non-white-space character at or after `at`. */
  function SkipSpace(c: string, at: nat): (k: nat)
    requires at <= |c|
    ensures at <= k <= |c| && (k == |c| || !IsSpace(c[k], Rust))
    decreases |c| - at
  {
    if at < |c| && IsSpace(c[at], Rust) then SkipSpace(c, at + 1) else at
  }

  /** `content[at..].trim_start()` is the text from `SkipSpace(c, at)`. */
  lemma {:induction false} SkipSpaceTrims(c: string, at: nat)
    requires at <= |c|
    ensures c[SkipSpace(c, at)..] == TrimStart(c[at..], Rust)
    decreases |c| - at
  {
    if at < |c| && IsSpace(c[at], Rust) {
      SkipSpaceTrims(c, at + 1);
      assert c[at..][1..] == c[at + 1..];
    }
  }

  /** The quote that closes a value opened at `k`: its position in `c`, or -1. */
  function Closer(c: string, k: nat): int
    requires k < |c|
  {
    IndexOfFrom(c, [c[k]], k + 1)
  }

  /** Where the scan resumes after a quoted value opened at `k` and closed at `e`, the value having been sought from `at`. */
  function AfterQuoted(at: nat, k: nat, e: nat): int {
    at + (e - k) + 1
  }

  /**
   * One pass of the second loop from index `j` of the lower-cased text: no
   * further `src=` (or nothing after it), a white-space-only tail, a value
   * found, or an unclosed quote; with the index the loop as written goes on
   * from.
   */
  datatype SrcHit = NoMore | Blank | Hit(found: Found, next: nat) | Unclosed(next: nat)

  function SrcScan(c: string, lower: string, j: nat): (h: SrcHit)
    requires |lower| == |c| && j <= |c|
    ensures h.Hit? || h.Unclosed? ==> j < h.next <= |c| + 4
    ensures h.Hit? && h.found.Quoted? ==> h.next <= |c|
  {
    var p := IndexOfFrom(lower, "src=", j);
    if p < 0 || p + 4 >= |c| then NoMore
    else
      var at := p + 4;
      var k := SkipSpace(c, at);
      if k == |c| then Blank
      else if c[k] == '"' || c[k] == '\'' then
        var e := Closer(c, k);
        if e >= 0 then Hit(Quoted(c[k + 1..e]), AfterQuoted(at, k, e))
        else Unclosed(at + 4)
      else Hit(Unquoted(c[k..]), at + 4)
  }

  /**
   * The second loop, from index `j`: after each `src=`, the quoted value or
   * the unquoted rest. This is the loop with the scan position kept within
   * the text and nothing read past a white-space-only tail.
   */
  function SrcsFound(c: string, lower: string, j: nat): seq<Found>
    requires |lower| == |c| && j <= |c|
    decreases |c| - j
  {
    match SrcScan(c, lower, j)
    case NoMore => []
    case Blank => []
    case Hit(f, next) => [f] + SrcsFound(c, lower, Min(next, |c|))
    case Unclosed(next) => SrcsFound(c, lower, Min(next, |c|))
  }

  function Min(a: nat, b: nat): nat { if a < b then a else b }

  /** `extract_candidate_paths`: the link values, then the `src=` values. */
  function CandidatePaths(c: string): (r: seq<string>)
    ensures Values(r)
  {
    Unwrapped(LinksFound(c, 0) + SrcsFound(c, ToLower(c), 0))
  }

  /** `extract_candidate_paths`: the first loop, then the second over the lower-cased text. */
  method ExtractCandidatePaths(content: string) returns (out: seq<string>)
    ensures out == CandidatePaths(content)
    ensures Values(out)
  {
    var links := ScanLinks(content);
    var srcs := ScanSrcs(content, ToLower(content));
    out := links + srcs;
    UnwrappedConcat(LinksFound(content, 0), SrcsFound(content, ToLower(content), 0));
  }

  /** The first loop of `extract_candidate_paths`: the value of each `](…)`. */
  method ScanLinks(content: string) returns (out: seq<string>)
    ensures out == Unwrapped(LinksFound(content, 0))
  {
    out := [];
    var i := 0;
    while i + 2 < |content|
      invariant out + Unwrapped(LinksFound(content, i)) == Unwrapped(LinksFound(content, 0))
      decreases |content| - i
    {
      match LinkScan(content, i)
      case LinkAt(f, next) =>
        var w := Value(f);
        UnwrappedCons(f, LinksFound(content, next));
        PushKept(out, w, Unwrapped(LinksFound(content, next)), Unwrapped(LinksFound(content, 0)));
        if w != [] {
          out := out + [w];
        }
        i := next;
      case NoLink =>
        i := i + 1;
    }
  }

  /**
   * The second loop of `extract_candidate_paths`, each pass searching from
   * `j` as `SrcScan` does, with the scan position kept within the text.
   */
  method ScanSrcs(content: string, lower: string) returns (out: seq<string>)
    requires |lower| == |content|
    ensures out == Unwrapped(SrcsFound(content, lower, 0))
  {
    out := [];
    var j := 0;
    while true
      invariant j <= |content|
      invariant out + Unwrapped(SrcsFound(content, lower, j)) == Unwrapped(SrcsFound(content, lower, 0))
      decreases |content| - j
    {
      match SrcScan(content, lower, j)
      case NoMore =>
        break;
      case Blank =>
        break;
      case Hit(f, next) =>
        var w := Value(f);
        var after := Min(next, |content|);
        UnwrappedCons(f, SrcsFound(content, lower, after));
        PushKept(out, w, Unwrapped(SrcsFound(content, lower, after)), Unwrapped(SrcsFound(content, lower, 0)));
        if w != [] {
          out := out + [w];
        }
        j := after;
      case Unclosed(next) =>
        j := Min(next, |content|);
    }
  }

  /** Pushing a non-empty value keeps the loop's account of what is still to come. */
  lemma PushKept(out: seq<string>, w: string, rest: seq<string>, total: seq<string>)
    requires out + (Keep(w) + rest) == total
    ensures (if w != [] then out + [w] else out) + rest == total
  {
    if w != [] {
      assert out + ([w] + rest) == (out + [w]) + rest;
    } else {
      assert Keep(w) + rest == rest;
    }
  }

  /** A step of a scanning loop as written: something found, or a panic that ends the scan. */
  datatype Step = Item(found: Found) | Panic(message: string)

  function Items(fs: seq<Found>): (r: seq<Step>)
    ensures |r| == |fs| && forall k :: 0 <= k < |fs| ==> r[k] == Item(fs[k])
  {
    if fs == [] then [] else [Item(fs[0])] + Items(fs[1..])
  }

  predicate NoPanic(steps: seq<Step>) {
    forall k :: 0 <= k < |steps| ==> steps[k].Item?
  }

  /**
   * The second loop as written: after an unquoted value or an unclosed quote
   * the scan resumes at `at + 4`, and `lower[j..]` panics once that lies past
   * the end; a white-space-only tail defaults the quote to `"` and
   * `rest[1..]` panics.
   */
  function SrcsAsWritten(c: string, lower: string, j: nat): seq<Step>
    requires |lower| == |c| && j <= |c| + 4
    decreases |c| + 4 - j
  {
    if j > |lower| then [Panic("byte index out of range")]
    else
      match SrcScan(c, lower, j)
      case NoMore => []
      case Blank => [Panic("byte index 1 is out of range")]
      case Hit(f, next) => [Item(f)] + SrcsAsWritten(c, lower, next)
      case Unclosed(next) => SrcsAsWritten(c, lower, next)
  }

  /** The steps in order as written: `trim_wrapping` of each, the first panic ending everything. */
  function UnwrapAsWritten(steps: seq<Step>): (r: Result<seq<string>>)
    ensures r.Ok? ==> Values(r.value)
  {
    if steps == [] then Ok([])
    else
      match steps[0]
      case Panic(m) => Err(m)
      case Item(f) =>
        match TrimWrappingAsWritten(Token(f))
        case Err(m) => Err(m)
        case Ok(w) =>
          match UnwrapAsWritten(steps[1..])
          case Err(m) => Err(m)
          case Ok(more) =>
            KeepValues(w, more);
            Ok(Keep(w) + more)
  }

  /** `extract_candidate_paths` as written: an error stands for a panic. */
  function CandidatePathsAsWritten(c: string): (r: Result<seq<string>>)
    ensures r.Ok? ==> Values(r.value)
  {
    UnwrapAsWritten(Items(LinksFound(c, 0)) + SrcsAsWritten(c, ToLower(c), 0))
  }

  lemma ItemsConcat(a: seq<Found>, b: seq<Found>)
    ensures Items(a + b) == Items(a) + Items(b)
  {
    assert |Items(a + b)| == |Items(a) + Items(b)|;
    forall k | 0 <= k < |a + b|
      ensures Items(a + b)[k] == (Items(a) + Items(b))[k]
    {
      if k < |a| {
        assert (a + b)[k] == a[k];
      } else {
        assert (a + b)[k] == b[k - |a|];
      }
    }
  }

  /** Without a panic, the scan as written finds what the corrected scan finds. */
  lemma {:induction false} SrcsAgree(c: string, lower: string, j: nat)
    requires |lower| == |c| && j <= |c|
    ensures NoPanic(SrcsAsWritten(c, lower, j)) ==> SrcsAsWritten(c, lower, j) == Items(SrcsFound(c, lower, j))
    decreases |c| - j
  {
    match SrcScan(c, lower, j)
    case NoMore =>
    case Blank =>
      assert SrcsAsWritten(c, lower, j)[0].Panic?;
    case Hit(f, next) =>
      var tail := SrcsAsWritten(c, lower, next);
      NoPanicTail(Item(f), tail);
      if next <= |c| {
        SrcsAgree(c, lower, next);
        assert Items([f] + SrcsFound(c, lower, next)) == [Item(f)] + Items(SrcsFound(c, lower, next));
      } else {
        assert tail[0].Panic?;
      }
    case Unclosed(next) =>
      if next <= |c| {
        SrcsAgree(c, lower, next);
      } else {
        assert SrcsAsWritten(c, lower, next)[0].Panic?;
      }
  }

  lemma NoPanicTail(s: Step, rest: seq<Step>)
    ensures NoPanic([s] + rest) ==> NoPanic(rest)
  {
    if NoPanic([s] + rest) {
      forall k | 0 <= k < |rest|
        ensures rest[k].Item?
      {
        assert rest[k] == ([s] + rest)[k + 1];
      }
    }
  }

  /** Steps whose unwrapping as written does not panic contain no panic. */
  lemma {:induction false} UnwrapOkNoPanic(steps: seq<Step>)
    ensures UnwrapAsWritten(steps).Ok? ==> NoPanic(steps)
  {
    if steps != [] && UnwrapAsWritten(steps).Ok? {
      UnwrapOkNoPanic(steps[1..]);
      forall k | 0 <= k < |steps|
        ensures steps[k].Item?
      {
        if k > 0 {
          assert steps[k] == steps[1..][k - 1];
        }
      }
    }
  }

  /** Where unwrapping as written does not panic, it gives the corrected values. */
  lemma {:induction false} UnwrapItemsAgree(fs: seq<Found>)
    ensures UnwrapAsWritten(Items(fs)).Ok? ==> UnwrapAsWritten(Items(fs)).value == Unwrapped(fs)
  {
    if fs != [] {
      assert Items(fs)[1..] == Items(fs[1..]);
      UnwrapItemsAgree(fs[1..]);
    }
  }

  /** The panic-free steps of the links followed by the `src=` steps unwrap to the corrected values. */
  lemma ConcatAgrees(links: seq<Found>, srcs: seq<Step>, found: seq<Found>)
    requires NoPanic(srcs) ==> srcs == Items(found)
    ensures UnwrapAsWritten(Items(links) + srcs).Ok? ==>
      UnwrapAsWritten(Items(links) + srcs).value == Unwrapped(links + found)
  {
    var all := Items(links) + srcs;
    if UnwrapAsWritten(all).Ok? {
      UnwrapOkNoPanic(all);
      NoPanicSuffix(Items(links), srcs);
      ItemsConcat(links, found);
      assert all == Items(links + found);
      UnwrapItemsAgree(links + found);
    }
  }

  lemma NoPanicSuffix(a: seq<Step>, b: seq<Step>)
    requires NoPanic(a + b)
    ensures NoPanic(b)
  {
    forall k | 0 <= k < |b|
      ensures b[k].Item?
    {
      assert b[k] == (a + b)[|a| + k];
    }
  }

  /** Wherever the loops as written do not panic, they find exactly what the corrected loops find. */
  lemma AsWrittenAgrees(c: string)
    ensures CandidatePathsAsWritten(c).Ok? ==> CandidatePathsAsWritten(c).value == CandidatePaths(c)
  {
    SrcsAgree(c, ToLower(c), 0);
    ConcatAgrees(LinksFound(c, 0), SrcsAsWritten(c, ToLower(c), 0), SrcsFound(c, ToLower(c), 0));
  }

  /** Text without `]` has no links. */
  lemma {:induction false} NoLinks(c: string, i: nat)
    requires forall q :: 0 <= q < |c| ==> c[q] != ']'
    ensures LinksFound(c, i) == []
    decreases |c| - i
  {
    if i + 2 < |c| {
      assert c[i] != ']';
      NoLinks(c, i + 1);
    }
  }

  /** Text without the first character of `sub` has no occurrence of `sub`. */
  lemma {:induction false} NotFound(s: string, sub: string, from: nat)
    requires sub != [] && sub[0] !in s
    ensures IndexOfFrom(s, sub, from) == -1
    decreases |s| - from
  {
    if from + |sub| <= |s| {
      assert s[from..from + |sub|][0] == s[from];
      NotFound(s, sub, from + 1);
    }
  }

  /** Lower-cased text without `s` has no `src=`, and neither scan finds anything. */
  lemma NoSrcs(c: string, lower: string, j: nat)
    requires |lower| == |c| && j <= |c| && 's' !in lower
    ensures SrcsFound(c, lower, j) == [] && SrcsAsWritten(c, lower, j) == []
  {
    NotFound(lower, "src=", j);
  }

  /** Lower-casing leaves text without capital letters as it is. */
  lemma LowerUnchanged(s: string)
    requires forall i :: 0 <= i < |s| ==> !('A' <= s[i] <= 'Z')
    ensures ToLower(s) == s
  {
  }

  /** The text `[a](")` holds one link, whose target is a lone `"`. */
  lemma LoneQuoteLinks(c: string)
    requires c == "[a](\")"
    ensures LinksFound(c, 0) == [Link("\"")]
  {
    assert IndexOfFrom(c, ")", 4) == 5 by {
      assert c[4..5] == "\"" && c[5..6] == ")";
      assert OccursAt(c, ")", 5) && !OccursAt(c, ")", 4);
      IndexOfIs(c, ")", 4, 5);
    }
    assert c[4..5] == "\"";
    assert LinkScan(c, 0) == NoLink && LinkScan(c, 1) == NoLink;
    assert LinkScan(c, 2) == LinkAt(Link("\""), 6);
    assert LinksFound(c, 6) == [];
    assert LinksFound(c, 2) == [Link("\"")] + [];
    assert LinksFound(c, 0) == LinksFound(c, 1) == LinksFound(c, 2);
  }

  /** A lone `"` is its own token, on which `trim_wrapping` panics. */
  lemma LoneQuoteToken()
    ensures TrimWrappingAsWritten(Token(Link("\""))).Err?
    ensures Value(Link("\"")) == []
  {
    var q := "\"";
    assert TrimStart(q, Rust) == q;
    assert TakeToken(q) == q;
    assert Trim(q, Rust) == q;
  }

  /** A first step on which `trim_wrapping` panics ends the whole scan in a panic. */
  lemma FirstStepPanics(f: Found, rest: seq<Step>)
    requires TrimWrappingAsWritten(Token(f)).Err?
    ensures UnwrapAsWritten([Item(f)] + rest).Err?
  {
    assert ([Item(f)] + rest)[0] == Item(f);
  }

  /** A panic after a step that `trim_wrapping` survives still ends the scan in a panic. */
  lemma PanicAfterStep(f: Found, m: string)
    requires TrimWrappingAsWritten(Token(f)).Ok?
    ensures UnwrapAsWritten([Item(f), Panic(m)]).Err?
  {
    assert [Item(f), Panic(m)][1..] == [Panic(m)];
  }

  lemma UnwrappedOne(f: Found)
    ensures Unwrapped([f]) == Keep(Value(f))
  {
    assert [f][1..] == [];
  }

  /** With `links` and `srcs` found, the as-written scan unwraps `Items(links)` and the as-written `src=` steps. */
  lemma CandidatesFrom(c: string, links: seq<Found>, srcs: seq<Found>, steps: seq<Step>)
    requires LinksFound(c, 0) == links && ToLower(c) == c
    requires SrcsFound(c, c, 0) == srcs && SrcsAsWritten(c, c, 0) == steps
    ensures CandidatePaths(c) == Unwrapped(links + srcs)
    ensures CandidatePathsAsWritten(c) == UnwrapAsWritten(Items(links) + steps)
  {
  }

  /**
   * A link whose target is a lone `"`: the link loop as written hands `"` to
   * `trim_wrapping`, which panics; the corrected loop finds nothing.
   */
  lemma LoneQuotePanics(c: string)
    requires c == "[a](\")"
    ensures CandidatePathsAsWritten(c).Err?
    ensures CandidatePaths(c) == []
  {
    var f := Link("\"");
    LowerUnchanged(c);
    NoSrcs(c, c, 0);
    LoneQuoteLinks(c);
    CandidatesFrom(c, [f], [], []);
    LoneQuoteToken();
    assert Items([f]) + [] == [Item(f)] + [];
    FirstStepPanics(f, []);
    assert [f] + [] == [f];
    UnwrappedOne(f);
  }

  /** In `<img src=a>` the one `src=` takes the unquoted `a>`, after which the scan as written resumes past the end. */
  lemma ShortSrcScan(c: string)
    requires c == "<img src=a>"
    ensures SrcsAsWritten(c, c, 0) == [Item(Unquoted("a>")), Panic("byte index out of range")]
    ensures SrcsFound(c, c, 0) == [Unquoted("a>")]
  {
    assert IndexOfFrom(c, "src=", 0) == 5 by {
      assert OccursAt(c, "src=", 5);
      forall q: nat | q < 5
        ensures !OccursAt(c, "src=", q)
      {
        assert c[q..q + 4][0] == c[q];
      }
      IndexOfIs(c, "src=", 0, 5);
    }
    assert SkipSpace(c, 9) == 9;
    assert c[9..] == "a>";
    assert SrcScan(c, c, 0) == Hit(Unquoted("a>"), 13);
    assert IndexOfFrom(c, "src=", 11) < 0;
  }

  /** `<img src=a>` has no capital letter and no link. */
  lemma ShortSrcPlain(c: string)
    requires c == "<img src=a>"
    ensures ToLower(c) == c && LinksFound(c, 0) == []
  {
    assert forall i :: 0 <= i < |c| ==> !('A' <= c[i] <= 'Z');
    LowerUnchanged(c);
    NoLinks(c, 0);
  }

  /** `a>` is its own token and is not wrapped. */
  lemma ShortSrcValue()
    ensures TrimWrappingAsWritten(Token(Unquoted("a>"))) == Ok("a>")
    ensures Value(Unquoted("a>")) == "a>"
  {
    var v := "a>";
    PlainToken(v);
    PlainUnwrapped(v);
  }

  lemma PlainToken(v: string)
    requires v == "a>"
    ensures SrcToken(v) == v
  {
    TrimIdentity(v, Rust);
    assert FirstToken(v) == Some(TakeToken(v));
    assert v[1..][1..] == [];
    assert TakeToken(v[1..]) == [v[1]] + TakeToken(v[1..][1..]);
    assert TakeToken(v[1..]) == v[1..];
    assert [v[0]] + v[1..] == v;
  }

  lemma PlainUnwrapped(v: string)
    requires v == "a>"
    ensures Trim(v, Rust) == v && !IsWrapped(v)
    ensures TrimWrappingAsWritten(v) == Ok(v) && TrimWrapping(v) == v
  {
    TrimIdentity(v, Rust);
    assert v[..1] == "a";
  }

  /**
   * An unquoted `src=` value within four bytes of the end: the scan as
   * written resumes past the end and `lower[j..]` panics; the corrected scan
   * stops there, keeping the value.
   */
  lemma ShortSrcPanics(c: string)
    requires c == "<img src=a>"
    ensures CandidatePathsAsWritten(c).Err?
    ensures CandidatePaths(c) == ["a>"]
  {
    var f := Unquoted("a>");
    var m := "byte index out of range";
    ShortSrcPlain(c);
    ShortSrcScan(c);
    CandidatesFrom(c, [], [f], [Item(f), Panic(m)]);
    ShortSrcValue();
    assert Items([]) + [Item(f), Panic(m)] == [Item(f), Panic(m)];
    PanicAfterStep(f, m);
    assert [] + [f] == [f];
    UnwrappedOne(f);
  }

  /**
   * `src=` followed only by white space: the quote defaults to `"` and
   * `rest[1..]` panics on the empty rest; the corrected scan stops.
   */
  lemma BlankSrcPanics(c: string)
    requires c == "src= "
    ensures CandidatePathsAsWritten(c).Err?
    ensures CandidatePaths(c) == []
  {
    LowerUnchanged(c);
    NoLinks(c, 0);
    assert IndexOfFrom(c, "src=", 0) == 0 by {
      assert OccursAt(c, "src=", 0);
    }
    assert SkipSpace(c, 4) == 5;
    assert SrcScan(c, c, 0) == Blank;
    CandidatesFrom(c, [], [], [Panic("byte index 1 is out of range")]);
    assert Items([]) + [Panic("byte index 1 is out of range")] == [Panic("byte index 1 is out of range")];
  }

  /** `is_image_ext`. */
  predicate IsImageExt(ext: string) {
    ext in {"png", "jpg", "jpeg", "gif", "webp", "bmp", "svg"}
  }

  /** `is_text_ext`. */
  predicate IsTextExt(ext: string) {
    ext in {"md", "txt", "uml", "puml"}
  }

  const ImageSuffixes: seq<string> := [".png", ".jpg", ".jpeg", ".gif", ".webp", ".bmp", ".svg"]

  /**
   * The filter of the reference scan: no `://`, and either inside an asset
   * folder or ending in an image extension, compared lower-cased.
   */
  predicate CountsAsReference(raw: string) {
    var lower := ToLower(raw);
    !Contains(lower, "://")
    && (Contains(lower, "/.xnote_assets/") || exists k :: 0 <= k < |ImageSuffixes| && EndsWith(lower, ImageSuffixes[k]))
  }

  /** The text before the first `c` (all of `s` without one): `s.split(c).next()`. */
  function BeforeChar(s: string, c: char): (r: string)
    ensures StartsWith(s, r) && c !in r
    ensures |r| == |s| || s[|r|] == c
  {
    if s == [] || s[0] == c then [] else [s[0]] + BeforeChar(s[1..], c)
  }

  /** `trim_start_matches('/')`. */
  function TrimLeadingSlashes(s: string): (r: string)
    ensures r == [] || r[0] != '/'
  {
    if s != [] && s[0] == '/' then TrimLeadingSlashes(s[1..]) else s
  }

  /** `Path::join` of a relative path: one `/` between the parts unless the base already ends with one. */
  function PathJoin(base: string, rel: string): string {
    if base == [] then rel
    else if base[|base| - 1] == '/' then base + rel
    else base + "/" + rel
  }

  const ExternalPrefixes: seq<string> := ["http://", "https://", "data:", "blob:", "tauri:", "asset:", "file://"]

  predicate IsExternal(lower: string) {
    exists k :: 0 <= k < |ExternalPrefixes| && StartsWith(lower, ExternalPrefixes[k])
  }

  /** The value without its `#…` fragment and then its `?…` query, unwrapped. */
  function CleanRef(r: string): (cleaned: string)
    ensures '#' !in cleaned && '?' !in cleaned
  {
    var noQuery := BeforeChar(BeforeChar(r, '#'), '?');
    assert forall ch :: ch in noQuery ==> ch in BeforeChar(r, '#');
    TrimWrapping(noQuery)
  }

  /**
   * `normalize_ref_path`: nothing for an empty or external reference;
   * otherwise the cleaned reference, resolved against the workspace root when
   * it starts with `/` and against the note's directory (the root when the
   * note has no parent) when it does not.
   */
  function NormalizeRefPath(root: string, noteDir: Option<string>, raw: string): (p: Option<string>)
    ensures p.None? <==> Trim(raw, Rust) == [] || IsExternal(ToLower(Trim(raw, Rust)))
    ensures p.Some? && StartsWith(CleanRef(Trim(raw, Rust)), "/") ==>
      p.value == PathJoin(root, TrimLeadingSlashes(CleanRef(Trim(raw, Rust))))
    ensures p.Some? && !StartsWith(CleanRef(Trim(raw, Rust)), "/") ==>
      p.value == PathJoin(if noteDir.Some? then noteDir.value else root, CleanRef(Trim(raw, Rust)))
  {
    var r := Trim(raw, Rust);
    if r == [] || IsExternal(ToLower(r)) then None
    else
      var cleaned := CleanRef(r);
      if StartsWith(cleaned, "/") then Some(PathJoin(root, TrimLeadingSlashes(cleaned)))
      else Some(PathJoin(if noteDir.Some? then noteDir.value else root, cleaned))
  }

  /**
   * `normalize_ref_path` as written: the cleaned reference goes through
   * `trim_wrapping` as written, so a reference that cleans to a lone quote
   * panics.
   */
  function NormalizeRefPathAsWritten(root: string, noteDir: Option<string>, raw: string): (p: Result<Option<string>>)
    ensures p.Err? ==> Trim(raw, Rust) != [] && !IsExternal(ToLower(Trim(raw, Rust)))
    ensures p.Ok? ==> p.value == NormalizeRefPath(root, noteDir, raw)
  {
    var r := Trim(raw, Rust);
    if r == [] || IsExternal(ToLower(r)) then Ok(None)
    else
      var noQuery := BeforeChar(BeforeChar(r, '#'), '?');
      match TrimWrappingAsWritten(noQuery)
      case Err(e) => Err(e)
      case Ok(cleaned) =>
        if StartsWith(cleaned, "/") then Ok(Some(PathJoin(root, TrimLeadingSlashes(cleaned))))
        else Ok(Some(PathJoin(if noteDir.Some? then noteDir.value else root, cleaned)))
  }

  /**
   * The link target `"?x.png` passes the reference filter (it ends in `.png`)
   * and cleans to a lone `"`: as written `normalize_ref_path` panics, while
   * the corrected version resolves it to the note's directory itself.
   */
  lemma QuoteQueryPanics(root: string, noteDir: string)
    ensures CountsAsReference("\"?x.png")
    ensures NormalizeRefPathAsWritten(root, Some(noteDir), "\"?x.png").Err?
    ensures NormalizeRefPath(root, Some(noteDir), "\"?x.png") == Some(PathJoin(noteDir, ""))
  {
    QuoteQueryCounts();
    QuoteQueryInternal();
    var raw := "\"?x.png";
    assert '#' !in raw by {
      forall k | 0 <= k < |raw| ensures raw[k] != '#' { }
    }
    assert BeforeChar(raw, '#') == raw;
    var q := BeforeChar(raw, '?');
    assert raw[0] == '"' && raw[1] == '?';
    assert |q| == 1 by {
      assert q == raw[..|q|];
    }
    assert q == "\"";
    TrimIdentity("\"", Rust);
    assert TrimWrappingAsWritten(q).Err?;
  }

  lemma QuoteQueryLower()
    ensures ToLower("\"?x.png") == "\"?x.png"
  {
    LowerUnchanged("\"?x.png");
  }

  /** `"?x.png` ends in `.png` and holds no `://`. */
  lemma QuoteQueryCounts()
    ensures CountsAsReference("\"?x.png")
  {
    var raw := "\"?x.png";
    QuoteQueryLower();
    assert EndsWith(raw, ImageSuffixes[0]) by {
      assert raw[|raw| - 4..] == ".png";
    }
    forall k: nat | k + 3 <= |raw| ensures !OccursAt(raw, "://", k) {
      assert raw[k..k + 3][0] == raw[k] != ':';
    }
  }

  /** `"?x.png` has no white space to trim and names no external scheme. */
  lemma QuoteQueryInternal()
    ensures Trim("\"?x.png", Rust) == "\"?x.png"
    ensures !IsExternal(ToLower("\"?x.png"))
  {
    var raw := "\"?x.png";
    QuoteQueryLower();
    TrimIdentity(raw, Rust);
    forall k | 0 <= k < |ExternalPrefixes| ensures !StartsWith(raw, ExternalPrefixes[k]) {
      assert raw[0] != ExternalPrefixes[k][0];
    }
  }

  /** A resolved reference lies under the workspace root or the note's directory, and carries no fragment or query. */
  lemma ResolvedRefPlacement(root: string, noteDir: Option<string>, raw: string)
    requires NormalizeRefPath(root, noteDir, raw).Some?
    ensures var p := NormalizeRefPath(root, noteDir, raw).value;
      StartsWith(p, root) || (noteDir.Some? && StartsWith(p, noteDir.value))
    ensures var p := NormalizeRefPath(root, noteDir, raw).value;
      var base := if StartsWith(CleanRef(Trim(raw, Rust)), "/") then root
                  else if noteDir.Some? then noteDir.value else root;
      StartsWith(p, base) && '#' !in p[|base|..] && '?' !in p[|base|..]
  {
    var r := Trim(raw, Rust);
    var cleaned := CleanRef(r);
    var base := if StartsWith(cleaned, "/") then root else if noteDir.Some? then noteDir.value else root;
    var rel := if StartsWith(cleaned, "/") then TrimLeadingSlashes(cleaned) else cleaned;
    JoinPlacement(base, rel, cleaned);
  }

  lemma JoinPlacement(base: string, rel: string, cleaned: string)
    requires '#' !in cleaned && '?' !in cleaned
    requires rel == cleaned || rel == TrimLeadingSlashes(cleaned)
    ensures StartsWith(PathJoin(base, rel), base)
    ensures '#' !in PathJoin(base, rel)[|base|..] && '?' !in PathJoin(base, rel)[|base|..]
  {
    SlashesTrimmedChars(cleaned);
    var p := PathJoin(base, rel);
    if base == [] {
      assert p[|base|..] == rel;
    } else if base[|base| - 1] == '/' {
      assert p[..|base|] == base && p[|base|..] == rel;
    } else {
      assert p[..|base|] == base && p[|base|..] == "/" + rel;
    }
  }

  lemma SlashesTrimmedChars(s: string)
    ensures forall c :: c in TrimLeadingSlashes(s) ==> c in s
  {
    if s != [] && s[0] == '/' {
      SlashesTrimmedChars(s[1..]);
    }
  }
}
