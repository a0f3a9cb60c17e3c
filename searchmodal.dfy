/**
 * The search dialog: escaping the query for a regular expression, cutting a
 * preview into highlighted and plain pieces, and the dialog's own state (the
 * hits, the selected hit, the placeholder text).
 */
module SearchModal {
  import opened Common
  import opened Strings
  import MockFs

  // ---------------------------------------------------------------------
  // escapeRegExp
  // ---------------------------------------------------------------------

  /** The characters that have a meaning in a regular expression: `. * + ? ^ $ { } ( ) | [ ] \`. */
  predicate IsRegExpSpecial(c: char) {
    c == '.' || c == '*' || c == '+' || c == '?' || c == '^' || c == '$' || c == '{' || c == '}'
    || c == '(' || c == ')' || c == '|' || c == '[' || c == ']' || c == '\\'
  }

  /** `escapeRegExp`: a backslash before each special character, everything else unchanged. */
  function EscapeRegExp(s: string): (r: string)
    ensures |r| >= |s|
    ensures forall c :: c in r <==> c in s || (c == '\\' && exists i :: 0 <= i < |s| && IsRegExpSpecial(s[i]))
  {
    if s == [] then []
    else (if IsRegExpSpecial(s[0]) then ['\\', s[0]] else [s[0]]) + EscapeRegExp(s[1..])
  }

  /** How a regular expression reads an escaped literal: `\c` stands for `c`, any other character for itself. */
  function LiteralOf(p: string): string
    decreases |p|
  {
    if p == [] then []
    else if p[0] == '\\' && |p| >= 2 then [p[1]] + LiteralOf(p[2..])
    else [p[0]] + LiteralOf(p[1..])
  }

  /** Every special character of the escaped text is escaped, so the pattern stands for the query itself. */
  lemma {:induction false} EscapeRegExpLiteral(s: string)
    ensures LiteralOf(EscapeRegExp(s)) == s
  {
    if s != [] {
      EscapeRegExpLiteral(s[1..]);
      var head := if IsRegExpSpecial(s[0]) then ['\\', s[0]] else [s[0]];
      var e := head + EscapeRegExp(s[1..]);
      if IsRegExpSpecial(s[0]) {
        assert e[2..] == EscapeRegExp(s[1..]);
      } else {
        assert e[1..] == EscapeRegExp(s[1..]);
      }
      assert s == [s[0]] + s[1..];
    }
  }

  /** A character outside the special set passes through; a special one gains exactly one backslash. */
  lemma EscapeRegExpOne(c: char)
    ensures IsRegExpSpecial(c) ==> EscapeRegExp([c]) == ['\\', c]
    ensures !IsRegExpSpecial(c) ==> EscapeRegExp([c]) == [c]
  {
    assert [c][1..] == [];
  }

  // ---------------------------------------------------------------------
  // HighlightText
  // ---------------------------------------------------------------------

  /** One piece of a highlighted preview. */
  datatype Part = Part(t: string, marked: bool)

  /** Two strings are equal up to ASCII case, character by character. */
  predicate SameIgnoringCase(a: string, b: string) {
    |a| == |b| && (a == [] || (ToLowerChar(a[0]) == ToLowerChar(b[0]) && SameIgnoringCase(a[1..], b[1..])))
  }

  /** Equal up to case is equal once both sides are lower-cased. */
  lemma {:induction false} SameIgnoringCaseLower(a: string, b: string)
    ensures SameIgnoringCase(a, b) <==> ToLower(a) == ToLower(b)
  {
    if a != [] && b != [] {
      SameIgnoringCaseLower(a[1..], b[1..]);
      assert ToLower(a) == [ToLowerChar(a[0])] + ToLower(a[1..]);
      assert ToLower(b) == [ToLowerChar(b[0])] + ToLower(b[1..]);
      if ToLower(a) == ToLower(b) {
        assert ToLower(a)[1..] == ToLower(a[1..]);
        assert ToLower(b)[1..] == ToLower(b[1..]);
      }
    }
  }

  /** The query matches the text at `k`, ignoring ASCII case. */
  predicate MatchAt(text: string, q: string, k: nat) {
    k + |q| <= |text| && SameIgnoringCase(text[k..k + |q|], q)
  }

  /** The first position at or after `from` where the query matches, as the global regular expression finds it. */
  function NextMatch(text: string, q: string, from: nat): (r: Option<nat>)
    ensures r.Some? ==> from <= r.value && r.value + |q| <= |text| && MatchAt(text, q, r.value)
    decreases |text| - from
  {
    if from + |q| > |text| then None
    else if MatchAt(text, q, from) then Some(from)
    else NextMatch(text, q, from + 1)
  }

  /** The match found is the first one: none starts between `from` and it, and none at all when nothing is found. */
  lemma {:induction false} NextMatchFirst(text: string, q: string, from: nat)
    ensures var r := NextMatch(text, q, from);
      forall k :: from <= k && (r.None? || k < r.value) ==> !MatchAt(text, q, k)
    decreases |text| - from
  {
    if from + |q| <= |text| && !MatchAt(text, q, from) {
      NextMatchFirst(text, q, from + 1);
    }
  }

  /** Where the matches of a query `n` long lie: at or after the position asked from, and inside the text. */
  ghost predicate Finds(find: nat -> Option<nat>, len: nat, n: nat) {
    forall k: nat :: find(k).Some? ==> k <= find(k).value && find(k).value + n <= len
  }

  /** The global regular expression's `exec` over `text`, as a function of where it resumes. */
  function Finder(text: string, q: string): (f: nat -> Option<nat>)
    ensures Finds(f, |text|, |q|)
  {
    (k: nat) => NextMatch(text, q, k)
  }

  /**
   * The pieces of `text` from `from` on, the matches (each `n` long) being
   * where `find` puts them: plain text up to each match, then the match.
   */
  function Cut(text: string, n: nat, find: nat -> Option<nat>, from: nat): seq<Part>
    requires from <= |text| && n > 0 && Finds(find, |text|, n)
    decreases |text| - from
  {
    match find(from)
    case None => if from < |text| then [Part(text[from..], false)] else []
    case Some(i) => Plain(text, from, i) + [Part(text[i..i + n], true)] + Cut(text, n, find, i + n)
  }

  /** The pieces of `text` from `from` on, cut at the matches of `q`. */
  function Segments(text: string, q: string, from: nat): seq<Part>
    requires from <= |text| && q != ""
  {
    Cut(text, |q|, Finder(text, q), from)
  }

  /** The unmarked piece between `from` and `i`, or none when they meet. */
  function Plain(text: string, from: nat, i: nat): (r: seq<Part>)
    requires from <= i <= |text|
    ensures |r| <= 1
  {
    if i > from then [Part(text[from..i], false)] else []
  }

  /** What `HighlightText` renders: the whole text unmarked for a blank query, else the segments of the text. */
  function Highlight(text: string, query: string): seq<Part> {
    var q := Trim(query, Js);
    if q == "" then [Part(text, false)] else Segments(text, q, 0)
  }

  /** The texts of the pieces, joined. */
  function Texts(parts: seq<Part>): string {
    if parts == [] then "" else parts[0].t + Texts(parts[1..])
  }

  lemma {:induction false} TextsAppend(a: seq<Part>, b: seq<Part>)
    ensures Texts(a + b) == Texts(a) + Texts(b)
    decreases |a|
  {
    if a == [] {
      assert a + b == b;
    } else {
      assert (a + b)[1..] == a[1..] + b;
      TextsAppend(a[1..], b);
    }
  }

  /**
   * Walking the pieces along the text from `from`: each marked piece sits
   * where the query matches, and no match starts inside a plain piece.
   */
  predicate Placed(text: string, q: string, from: nat, parts: seq<Part>)
    decreases |parts|
  {
    parts == []
    || ((if parts[0].marked then MatchAt(text, q, from)
         else forall k :: from <= k < from + |parts[0].t| ==> !MatchAt(text, q, k))
        && Placed(text, q, from + |parts[0].t|, parts[1..]))
  }

  /** The segments when a match is found at `i`: the plain text before it (if any), the match, and the rest. */
  lemma SegmentsAt(text: string, q: string, from: nat, i: nat)
    requires from <= |text| && q != "" && NextMatch(text, q, from) == Some(i)
    ensures i + |q| <= |text|
    ensures from <= i
    ensures Segments(text, q, from)
      == Plain(text, from, i) + [Part(text[i..i + |q|], true)] + Segments(text, q, i + |q|)
  {
  }

  /** Three consecutive slices of a string spell the slice they cover. */
  lemma SlicesCover(text: string, from: nat, i: nat, n: nat, a: string, b: string, c: string)
    requires from <= i <= i + n <= |text|
    requires a == text[from..i] && b == text[i..i + n] && c == text[i + n..]
    ensures a + b + c == text[from..]
  {
    AppendAssoc(a, b, c);
    SliceSplit(text, i, i + n, |text|);
    SliceSplit(text, from, i, |text|);
  }

  /** The texts of three runs of pieces, joined. */
  lemma TextsAppend3(pre: seq<Part>, mark: seq<Part>, rest: seq<Part>)
    ensures Texts(pre + mark + rest) == Texts(pre) + Texts(mark) + Texts(rest)
  {
    TextsAppend(pre + mark, rest);
    TextsAppend(pre, mark);
  }

  /** Pieces that spell three consecutive slices of the text spell the slice they cover. */
  lemma TextsCover(text: string, from: nat, i: nat, n: nat, pre: seq<Part>, mark: seq<Part>, rest: seq<Part>)
    requires from <= i <= i + n <= |text|
    requires Texts(pre) == text[from..i] && Texts(mark) == text[i..i + n] && Texts(rest) == text[i + n..]
    ensures Texts(pre + mark + rest) == text[from..]
  {
    TextsAppend3(pre, mark, rest);
    SlicesCover(text, from, i, n, Texts(pre), Texts(mark), Texts(rest));
  }

  /** The plain piece before a match, the match and pieces spelling the rest spell the text from `from`. */
  lemma PiecesCover(text: string, from: nat, i: nat, n: nat, rest: seq<Part>)
    requires from <= i <= i + n <= |text|
    requires Texts(rest) == text[i + n..]
    ensures Texts(Plain(text, from, i) + [Part(text[i..i + n], true)] + rest) == text[from..]
  {
    var pre, mark := Plain(text, from, i), [Part(text[i..i + n], true)];
    assert Texts(mark) == text[i..i + n];
    assert Texts(pre) == text[from..i];
    TextsCover(text, from, i, n, pre, mark, rest);
  }

  /** The pieces put back together give the text, wherever the matches are. */
  lemma {:induction false} CutTexts(text: string, n: nat, find: nat -> Option<nat>, from: nat)
    requires from <= |text| && n > 0 && Finds(find, |text|, n)
    ensures Texts(Cut(text, n, find, from)) == text[from..]
    decreases |text| - from
  {
    match find(from)
    case None =>
      if from < |text| {
        assert Texts([Part(text[from..], false)]) == text[from..];
      }
    case Some(i) =>
      CutTexts(text, n, find, i + n);
      PiecesCover(text, from, i, n, Cut(text, n, find, i + n));
  }

  /** The highlighted preview spells the text it was cut from. */
  lemma SegmentsTexts(text: string, q: string, from: nat)
    requires from <= |text| && q != ""
    ensures Texts(Segments(text, q, from)) == text[from..]
  {
    CutTexts(text, |q|, Finder(text, q), from);
  }

  /** A marked piece where the query matches, then pieces placed after it. */
  lemma PlacedMatch(text: string, q: string, i: nat, rest: seq<Part>)
    requires MatchAt(text, q, i) && Placed(text, q, i + |q|, rest)
    ensures Placed(text, q, i, [Part(text[i..i + |q|], true)] + rest)
  {
    assert ([Part(text[i..i + |q|], true)] + rest)[1..] == rest;
  }

  /** A plain piece holding no match, then pieces placed after it. */
  lemma PlacedPlain(text: string, q: string, from: nat, i: nat, rest: seq<Part>)
    requires from < i <= |text| && Placed(text, q, i, rest)
    requires forall k :: from <= k < i ==> !MatchAt(text, q, k)
    ensures Placed(text, q, from, [Part(text[from..i], false)] + rest)
  {
    assert ([Part(text[from..i], false)] + rest)[1..] == rest;
  }

  /** `find` returns the first match at or after where it resumes, and nothing only when no match is left. */
  ghost predicate FindsFirst(find: nat -> Option<nat>, text: string, q: string) {
    forall k: nat :: k <= |text| ==> FirstFrom(text, q, k, find(k))
  }

  /** `r` is the first match at or after `k`, or no match is left. */
  ghost predicate FirstFrom(text: string, q: string, k: nat, r: Option<nat>) {
    (r.Some? ==> MatchAt(text, q, r.value))
    && forall j :: k <= j && (r.None? || j < r.value) ==> !MatchAt(text, q, j)
  }

  /** The regular expression's `exec` finds the first match. */
  lemma FinderFirst(text: string, q: string)
    ensures FindsFirst(Finder(text, q), text, q)
  {
    forall k: nat | k <= |text| {
      NextMatchFirst(text, q, k);
    }
  }

  /** The tail after the last match is one plain piece, if any text is left. */
  lemma PlacedTail(text: string, q: string, from: nat)
    requires from <= |text|
    requires forall j :: from <= j ==> !MatchAt(text, q, j)
    ensures Placed(text, q, from, if from < |text| then [Part(text[from..], false)] else [])
  {
    if from < |text| {
      PlacedPlain(text, q, from, |text|, []);
      assert text[from..|text|] == text[from..];
      assert [Part(text[from..|text|], false)] + [] == [Part(text[from..], false)];
    }
  }

  /** The plain piece before the first match, the match, and pieces placed after it. */
  lemma PlacedAround(text: string, q: string, from: nat, i: nat, rest: seq<Part>)
    requires from <= i && MatchAt(text, q, i) && Placed(text, q, i + |q|, rest)
    requires forall j :: from <= j < i ==> !MatchAt(text, q, j)
    ensures Placed(text, q, from, Plain(text, from, i) + [Part(text[i..i + |q|], true)] + rest)
  {
    var mark := [Part(text[i..i + |q|], true)];
    PlacedMatch(text, q, i, rest);
    if i > from {
      PlacedPlain(text, q, from, i, mark + rest);
      AppendAssoc(Plain(text, from, i), mark, rest);
    } else {
      assert Plain(text, from, i) + mark + rest == mark + rest;
    }
  }

  /** Every piece is placed where a finder that finds first puts it. */
  lemma {:induction false} CutPlaced(text: string, q: string, find: nat -> Option<nat>, from: nat)
    requires from <= |text| && q != "" && Finds(find, |text|, |q|) && FindsFirst(find, text, q)
    ensures Placed(text, q, from, Cut(text, |q|, find, from))
    decreases |text| - from
  {
    assert FirstFrom(text, q, from, find(from));
    match find(from)
    case None =>
      PlacedTail(text, q, from);
    case Some(i) =>
      CutPlaced(text, q, find, i + |q|);
      PlacedAround(text, q, from, i, Cut(text, |q|, find, i + |q|));
  }

  /** Every piece is placed as the greedy left-to-right search finds it. */
  lemma SegmentsPlaced(text: string, q: string, from: nat)
    requires from <= |text| && q != ""
    ensures Placed(text, q, from, Segments(text, q, from))
  {
    FinderFirst(text, q);
    CutPlaced(text, q, Finder(text, q), from);
  }

  /** Marked pieces equal the query up to ASCII case; plain pieces are never empty. */
  lemma {:induction false} SegmentsPieces(text: string, q: string, from: nat)
    requires from <= |text| && q != ""
    ensures forall p :: p in Segments(text, q, from) ==>
      (p.marked ==> SameIgnoringCase(p.t, q)) && (!p.marked ==> p.t != "")
    decreases |text| - from
  {
    var m := NextMatch(text, q, from);
    if m.Some? {
      var i := m.value;
      SegmentsAt(text, q, from, i);
      SegmentsPieces(text, q, i + |q|);
      var pre := Plain(text, from, i);
      var mark := Part(text[i..i + |q|], true);
      var rest := Segments(text, q, i + |q|);
      forall p | p in pre + [mark] + rest
        ensures (p.marked ==> SameIgnoringCase(p.t, q)) && (!p.marked ==> p.t != "")
      {
        if p !in rest && p !in pre {
          assert p == mark;
        }
      }
    }
  }

  /** A blank query leaves the text as one unmarked piece. */
  lemma BlankQueryPlain(text: string, query: string)
    requires Trim(query, Js) == ""
    ensures Highlight(text, query) == [Part(text, false)]
  {
  }

  /** Four runs of pieces, regrouped. */
  lemma Regroup<T>(w: seq<T>, x: seq<T>, y: seq<T>, z: seq<T>)
    ensures w + x + y + z == w + (x + y + z)
  {
  }

  /** One round of the loop: taking the plain piece and the match leaves the pieces after the match to do. */
  lemma CutStep(text: string, n: nat, find: nat -> Option<nat>, last: nat, index: nat, before: seq<Part>)
    requires last <= |text| && n > 0 && Finds(find, |text|, n) && find(last) == Some(index)
    ensures last <= index && index + n <= |text|
    ensures before + Plain(text, last, index) + [Part(text[index..index + n], true)] + Cut(text, n, find, index + n)
      == before + Cut(text, n, find, last)
  {
    Regroup(before, Plain(text, last, index), [Part(text[index..index + n], true)], Cut(text, n, find, index + n));
  }

  /** `HighlightText`'s loop over the matches, each call of `find` standing for one `exec` of the regular expression. */
  method CutAtMatches(text: string, n: nat, find: nat -> Option<nat>) returns (parts: seq<Part>)
    requires n > 0 && Finds(find, |text|, n)
    ensures parts == Cut(text, n, find, 0)
  {
    parts := [];
    var last := 0;
    var m := find(0);
    while m.Some?
      invariant 0 <= last <= |text|
      invariant m == find(last)
      invariant parts + Cut(text, n, find, last) == Cut(text, n, find, 0)
      decreases |text| - last
    {
      var index := m.value;
      CutStep(text, n, find, last, index, parts);
      ghost var before := parts;
      if index > last {
        parts := parts + [Part(text[last..index], false)];
      }
      parts := parts + [Part(text[index..index + n], true)];
      assert parts == before + Plain(text, last, index) + [Part(text[index..index + n], true)];
      last := index + n;
      m := find(last);
    }
    if last < |text| {
      parts := parts + [Part(text[last..], false)];
    }
  }

  /** `HighlightText`: the whole text for a blank query, else the text cut at the query's matches. */
  method HighlightParts(text: string, query: string) returns (parts: seq<Part>)
    ensures parts == Highlight(text, query)
  {
    var q := Trim(query, Js);
    if q == "" {
      return [Part(text, false)];
    }
    parts := CutAtMatches(text, |q|, Finder(text, q));
  }

  // ---------------------------------------------------------------------
  // The dialog's state
  // ---------------------------------------------------------------------

  /** What a key press in the dialog asks for. */
  datatype KeyOutcome = Nothing | Close | JumpTo(hit: MockFs.Hit)

  class SearchDialog {
    var query: string
    var hits: seq<MockFs.Hit>
    var isSearching: bool
    var activeIndex: int

    /** The state before the dialog is first opened. */
    constructor ()
      ensures query == "" && hits == [] && !isSearching && activeIndex == 0
    {
      query := "";
      hits := [];
      isSearching := false;
      activeIndex := 0;
    }

    /** Opening clears the query, the hits and the selection. */
    method Open()
      modifies this
      ensures query == "" && hits == [] && activeIndex == 0 && isSearching == old(isSearching)
    {
      query := "";
      hits := [];
      activeIndex := 0;
    }

    /** Typing changes the query; a blank query clears the hits at once, without a search. */
    method SetQuery(text: string)
      modifies this
      ensures query == text && isSearching == old(isSearching) && activeIndex == old(activeIndex)
      ensures hits == if Trim(text, Js) == "" then [] else old(hits)
    {
      query := text;
      if Trim(text, Js) == "" {
        hits := [];
      }
    }

    /** The debounced search begins. */
    method StartSearch()
      modifies this
      ensures isSearching && query == old(query) && hits == old(hits) && activeIndex == old(activeIndex)
    {
      isSearching := true;
    }

    /** The search ends: its hits and the first one selected, or no hits after a failure. */
    method FinishSearch(outcome: Result<seq<MockFs.Hit>>)
      modifies this
      ensures !isSearching && query == old(query)
      ensures outcome.Ok? ==> hits == outcome.value && activeIndex == 0
      ensures outcome.Err? ==> hits == [] && activeIndex == old(activeIndex)
    {
      if outcome.Ok? {
        hits := outcome.value;
        activeIndex := 0;
      } else {
        hits := [];
      }
      isSearching := false;
    }

    /** The selection points at a hit. */
    predicate InRange()
      reads this
    {
      0 <= activeIndex < |hits|
    }

    /** The dialog's key handler. */
    method KeyDown(key: string) returns (out: KeyOutcome)
      modifies this
      ensures query == old(query) && hits == old(hits) && isSearching == old(isSearching)
      ensures key == "ArrowDown" ==> activeIndex == (if old(activeIndex) + 1 < |hits| - 1 then old(activeIndex) + 1 else |hits| - 1)
      ensures key == "ArrowUp" ==> activeIndex == (if old(activeIndex) - 1 > 0 then old(activeIndex) - 1 else 0)
      ensures key != "ArrowDown" && key != "ArrowUp" ==> activeIndex == old(activeIndex)
      ensures key == "Escape" ==> out == Close
      ensures key == "Enter" ==> out == if 0 <= activeIndex < |hits| then JumpTo(hits[activeIndex]) else Nothing
      ensures key != "Escape" && key != "Enter" ==> out == Nothing
      ensures old(InRange()) ==> InRange()
    {
      out := Nothing;
      if key == "Escape" {
        out := Close;
      }
      if key == "ArrowDown" {
        activeIndex := if activeIndex + 1 < |hits| - 1 then activeIndex + 1 else |hits| - 1;
      }
      if key == "ArrowUp" {
        activeIndex := if activeIndex - 1 > 0 then activeIndex - 1 else 0;
      }
      if key == "Enter" {
        if 0 <= activeIndex < |hits| {
          out := JumpTo(hits[activeIndex]);
        }
      }
    }

    /** The placeholder: no query, then a running search, then no results, else nothing. */
    function EmptyText(): (r: string)
      reads this
      ensures r == "" <==> Trim(query, Js) != "" && !isSearching && hits != []
    {
      if Trim(query, Js) == "" then "Type to search..."
      else if isSearching then "Searching..."
      else if hits == [] then "No results"
      else ""
    }
  }

  /** Moving down then up never leaves the hit list, and with no hits ArrowDown gives -1. */
  lemma ArrowBounds(i: int, n: nat)
    ensures n == 0 && i >= -1 ==> (if i + 1 < n - 1 then i + 1 else n - 1) == -1
    ensures n > 0 && 0 <= i < n ==> 0 <= (if i + 1 < n - 1 then i + 1 else n - 1) < n
    ensures 0 <= i < n ==> 0 <= (if i - 1 > 0 then i - 1 else 0) < n
  {
  }
}
