/**
 * The pure helpers of the note editor (`src/components/Editor.tsx`): the
 * FNV-1a hash that keys diagrams, path splitting and joining, the asset
 * directory of a note, the MIME type of an image path and the resolution of
 * an image source to a local file.
 */
module EditorPaths {
  import opened Common
  import opened Strings

  /** A UTF-16 code unit, what `charCodeAt` returns. */
  type CodeUnit = x: int | 0 <= x < 0x1_0000

  /** The UTF-16 code units of a string: a surrogate pair for each character above the basic plane. */
  function Utf16(s: string): (r: seq<CodeUnit>)
    ensures |r| >= |s|
  {
    if s == [] then []
    else
      var c := s[0] as int;
      var head: seq<CodeUnit> :=
        if c < 0x1_0000 then [c]
        else [0xD800 + (c - 0x1_0000) / 0x400, 0xDC00 + (c - 0x1_0000) % 0x400];
      head + Utf16(s[1..])
  }

  lemma {:induction false} Utf16Append(a: string, b: string)
    ensures Utf16(a + b) == Utf16(a) + Utf16(b)
    decreases |a|
  {
    if a == [] {
      assert a + b == b;
    } else {
      assert (a + b)[0] == a[0];
      assert (a + b)[1..] == a[1..] + b;
      Utf16Append(a[1..], b);
    }
  }

  const OffsetBasis: bv32 := 2166136261
  const FnvPrime: bv32 := 16777619

  /**
   * One round of the loop: `h ^= unit; h = Math.imul(h, prime)`. The signed
   * 32-bit values JavaScript produces agree with these unsigned ones modulo
   * 2^32, and the final `h >>> 0` reads them unsigned.
   */
  function FnvStep(h: bv32, u: CodeUnit): bv32 {
    (h ^ (u as bv32)) * FnvPrime
  }

  /** FNV-1a from the running value `h` over `units`, first unit first. */
  function FnvFrom(h: bv32, units: seq<CodeUnit>): bv32
    decreases |units|
  {
    if units == [] then h else FnvFrom(FnvStep(h, units[0]), units[1..])
  }

  /** The 32-bit FNV-1a hash of a string's UTF-16 code units. */
  function Fnv(s: string): bv32 {
    FnvFrom(OffsetBasis, Utf16(s))
  }

  /** The hash runs left to right: hashing `a + b` continues from the hash of `a`. */
  lemma {:induction false} FnvFromAppend(h: bv32, a: seq<CodeUnit>, b: seq<CodeUnit>)
    ensures FnvFrom(h, a + b) == FnvFrom(FnvFrom(h, a), b)
    decreases |a|
  {
    if a != [] {
      assert (a + b)[0] == a[0];
      assert (a + b)[1..] == a[1..] + b;
      FnvFromAppend(FnvStep(h, a[0]), a[1..], b);
    } else {
      assert a + b == b;
    }
  }

  /** The hash of a concatenation is the hash of the second part started from the hash of the first. */
  lemma FnvConcat(a: string, b: string)
    ensures Fnv(a + b) == FnvFrom(Fnv(a), Utf16(b))
  {
    Utf16Append(a, b);
    FnvFromAppend(OffsetBasis, Utf16(a), Utf16(b));
  }

  const HexDigits: string := "0123456789abcdef"

  /** `n.toString(16)`: lower-case hexadecimal without leading zeros. */
  function ToHex(n: nat): (r: string)
    ensures |r| >= 1 && forall i :: 0 <= i < |r| ==> r[i] in HexDigits
    decreases n
  {
    if n < 16 then [HexDigits[n]] else ToHex(n / 16) + [HexDigits[n % 16]]
  }

  function HexDigitValue(c: char): nat {
    if '0' <= c <= '9' then c as int - '0' as int
    else if 'a' <= c <= 'f' then c as int - 'a' as int + 10
    else 0
  }

  /** The value of a string of lower-case hexadecimal digits. */
  function HexValue(s: string): nat {
    if s == [] then 0 else HexValue(s[..|s| - 1]) * 16 + HexDigitValue(s[|s| - 1])
  }

  lemma HexDigitRoundTrip(d: nat)
    requires d < 16
    ensures HexDigitValue(HexDigits[d]) == d
  {
  }

  /** Reading the hexadecimal text back gives the number. */
  lemma {:induction false} HexRoundTrip(n: nat)
    ensures HexValue(ToHex(n)) == n
    decreases n
  {
    if n < 16 {
      HexDigitRoundTrip(n);
    } else {
      HexRoundTrip(n / 16);
      HexDigitRoundTrip(n % 16);
      var s := ToHex(n);
      assert s[..|s| - 1] == ToHex(n / 16);
    }
  }

  /** Without padding there is no leading zero except for 0 itself. */
  lemma {:induction false} HexNoLeadingZero(n: nat)
    ensures ToHex(n)[0] == '0' <==> n == 0
    decreases n
  {
    if n >= 16 {
      HexNoLeadingZero(n / 16);
    }
  }

  /** A number below 16^k takes at most k digits. */
  lemma {:induction false} HexLength(n: nat, k: nat, bound: nat)
    requires k >= 1 && n < bound && bound == Pow16(k)
    ensures |ToHex(n)| <= k
    decreases k
  {
    if n >= 16 {
      assert Pow16(1) == 16;
      assert k >= 2;
      assert Pow16(k) == 16 * Pow16(k - 1);
      HexLength(n / 16, k - 1, Pow16(k - 1));
    }
  }

  function Pow16(k: nat): nat {
    if k == 0 then 1 else 16 * Pow16(k - 1)
  }

  /** `hashString`, with its loop over the code units. */
  method HashString(input: string) returns (hex: string)
    ensures hex == ToHex(Fnv(input) as nat)
    ensures 1 <= |hex| <= 8 && HexValue(hex) == Fnv(input) as nat
  {
    var units := Utf16(input);
    var h := OffsetBasis;
    var i := 0;
    while i < |units|
      invariant 0 <= i <= |units|
      invariant FnvFrom(h, units[i..]) == Fnv(input)
    {
      assert units[i..][1..] == units[i + 1..];
      h := FnvStep(h, units[i]);
      i := i + 1;
    }
    hex := ToHex(h as nat);
    HexRoundTrip(h as nat);
    assert Pow16(8) == 0x1_0000_0000;
    HexLength(h as nat, 8, Pow16(8));
  }

  /** The empty string hashes to the offset basis, printed `811c9dc5`. */
  lemma EmptyHash()
    ensures ToHex(Fnv("") as nat) == "811c9dc5"
  {
    assert Utf16("") == [];
    OffsetHex();
  }

  lemma OffsetHex()
    ensures ToHex(OffsetBasis as nat) == "811c9dc5"
  {
    HexHighHalf();
    HexDigitAfter(0x811c, 0x9, "811c");
    HexDigitAfter(0x811c9, 0xd, "811c9");
    HexDigitAfter(0x811c9d, 0xc, "811c9d");
    HexDigitAfter(0x811c9dc, 0x5, "811c9dc");
  }

  lemma HexHighHalf()
    ensures ToHex(0x811c) == "811c"
  {
    HexDigitAfter(0x8, 0x1, "8");
    HexDigitAfter(0x81, 0x1, "81");
    HexDigitAfter(0x811, 0xc, "811");
  }

  /** One more hexadecimal digit after a non-zero number. */
  lemma HexDigitAfter(n: nat, d: nat, s: string)
    requires 0 < n && d < 16 && ToHex(n) == s
    ensures ToHex(n * 16 + d) == s + [HexDigits[d]]
  {
    assert (n * 16 + d) / 16 == n && (n * 16 + d) % 16 == d;
  }

  /** `/[/\\]+/`: the separators of `getPathParts`. */
  predicate IsSep(c: char) { c == '/' || c == '\\' }

  /** Splitting at every separator, empty pieces included. */
  function SplitSeps(s: string): (r: seq<string>)
    ensures |r| >= 1
    ensures forall i :: 0 <= i < |r| ==> forall j :: 0 <= j < |r[i]| ==> !IsSep(r[i][j])
  {
    if s == [] then [""]
    else
      var rest := SplitSeps(s[1..]);
      if IsSep(s[0]) then [""] + rest else [[s[0]] + rest[0]] + rest[1..]
  }

  /** A path segment as `getPathParts` yields it: non-empty and without separators. */
  predicate IsPart(x: string) {
    x != [] && forall j :: 0 <= j < |x| ==> !IsSep(x[j])
  }

  predicate AllParts(xs: seq<string>) {
    forall i :: 0 <= i < |xs| ==> IsPart(xs[i])
  }

  /**
   * `getPathParts`: splitting at runs of `/` or `\` and dropping the empty
   * pieces, which is splitting at each separator and dropping the empty pieces.
   */
  function PathParts(p: string): (r: seq<string>)
    ensures AllParts(r)
  {
    NonEmptySepFree(SplitSeps(p));
    NonEmpty(SplitSeps(p))
  }

  lemma NonEmptySepFree(xs: seq<string>)
    requires forall i :: 0 <= i < |xs| ==> forall j :: 0 <= j < |xs[i]| ==> !IsSep(xs[i][j])
    ensures AllParts(NonEmpty(xs))
  {
    if xs != [] {
      NonEmptySepFree(xs[1..]);
    }
  }

  lemma {:induction false} SplitSepsConcat(a: string, sep: char, b: string)
    requires IsSep(sep)
    ensures SplitSeps(a + [sep] + b) == SplitSeps(a) + SplitSeps(b)
    decreases |a|
  {
    var x := a + [sep] + b;
    SplitSepsCons(x);
    if a == [] {
      assert x[1..] == b;
    } else {
      assert x[0] == a[0];
      assert x[1..] == a[1..] + [sep] + b;
      SplitSepsConcat(a[1..], sep, b);
      SplitSepsCons(a);
      if !IsSep(a[0]) {
        JoinFirstPart(a[0], SplitSeps(a[1..]), SplitSeps(b));
      }
    }
  }

  lemma SplitSepsCons(s: string)
    requires s != []
    ensures SplitSeps(s) == if IsSep(s[0]) then [""] + SplitSeps(s[1..])
      else [[s[0]] + SplitSeps(s[1..])[0]] + SplitSeps(s[1..])[1..]
  {
  }

  lemma JoinFirstPart(c: char, ra: seq<string>, rb: seq<string>)
    requires |ra| >= 1
    ensures [[c] + (ra + rb)[0]] + (ra + rb)[1..] == ([[c] + ra[0]] + ra[1..]) + rb
  {
    assert (ra + rb)[0] == ra[0];
    assert (ra + rb)[1..] == ra[1..] + rb;
  }

  lemma SplitSepsPart(x: string)
    requires forall j :: 0 <= j < |x| ==> !IsSep(x[j])
    ensures SplitSeps(x) == [x]
  {
    if x != [] {
      SplitSepsPart(x[1..]);
      assert [x[0]] + x[1..] == x;
    }
  }

  lemma NonEmptyOfParts(xs: seq<string>)
    requires AllParts(xs)
    ensures NonEmpty(xs) == xs
  {
    if xs != [] {
      NonEmptyOfParts(xs[1..]);
      assert [xs[0]] + xs[1..] == xs;
    }
  }

  /** Joining segments with `/` and splitting again gives the segments back. */
  lemma {:induction false} PartsOfJoin(xs: seq<string>)
    requires AllParts(xs)
    ensures PathParts(Join(xs, "/")) == xs
    decreases |xs|
  {
    if xs == [] {
    } else if |xs| == 1 {
      SplitSepsPart(xs[0]);
    } else {
      PartsOfJoin(xs[1..]);
      SplitSepsPart(xs[0]);
      SplitSepsConcat(xs[0], '/', Join(xs[1..], "/"));
      assert xs[0] + "/" + Join(xs[1..], "/") == xs[0] + ['/'] + Join(xs[1..], "/");
      NonEmptyAppend(SplitSeps(xs[0]), SplitSeps(Join(xs[1..], "/")));
      NonEmptyOfParts([xs[0]]);
      assert xs == [xs[0]] + xs[1..];
    }
  }

  /** A leading separator adds no segment. */
  lemma PartsAfterSlash(x: string)
    ensures PathParts("/" + x) == PathParts(x)
  {
    assert ("/" + x)[1..] == x;
  }

  /** Joined segments never start with `/`. */
  lemma JoinedPartsNotRooted(xs: seq<string>)
    requires AllParts(xs)
    ensures !StartsWith(Join(xs, "/"), "/")
  {
    if xs != [] {
      var j := Join(xs, "/");
      if |xs| >= 2 {
        assert j == xs[0] + "/" + Join(xs[1..], "/");
      }
      assert j[0] == xs[0][0];
      assert !IsSep(j[0]);
      assert j[..1] == [j[0]];
    }
  }

  /** `parts.slice(0, -1)`: all but the last element, and nothing for an empty list. */
  function AllButLast<T>(xs: seq<T>): seq<T> {
    if xs == [] then [] else xs[..|xs| - 1]
  }

  /** `getDirname`: the segments but the last, rooted iff the path is. */
  function Dirname(p: string): (r: string)
    ensures StartsWith(r, "/") <==> StartsWith(p, "/")
  {
    var parts := PathParts(p);
    var joined := Join(AllButLast(parts), "/");
    JoinedPartsNotRooted(AllButLast(parts));
    if StartsWith(p, "/") then "/" + joined else joined
  }

  /** `getBasename`: the last segment, or '' when there is none. */
  function Basename(p: string): (r: string)
    ensures r == "" <==> PathParts(p) == []
    ensures forall j :: 0 <= j < |r| ==> !IsSep(r[j])
  {
    var parts := PathParts(p);
    if parts == [] then "" else parts[|parts| - 1]
  }

  /** The directory's segments followed by the base name are the path's segments. */
  lemma DirnameBasename(p: string)
    requires PathParts(p) != []
    ensures PathParts(Dirname(p)) + [Basename(p)] == PathParts(p)
  {
    var parts := PathParts(p);
    var init := parts[..|parts| - 1];
    PartsOfJoin(init);
    if StartsWith(p, "/") {
      PartsAfterSlash(Join(init, "/"));
    }
    assert init + [parts[|parts| - 1]] == parts;
  }

  /** One segment of the relative path applied to the segment stack. */
  function ApplyPart(out: seq<string>, part: string): seq<string> {
    if part == "." || part == "" then out
    else if part == ".." then AllButLast(out)
    else out + [part]
  }

  /** The segment stack after every relative segment, first to last. */
  function Resolve(out: seq<string>, rel: seq<string>): seq<string>
    decreases |rel|
  {
    if rel == [] then out else Resolve(ApplyPart(out, rel[0]), rel[1..])
  }

  /** `normalizeJoin`, as a value: the rooting of `baseDir` and the resolved segments. */
  function JoinedPath(baseDir: string, rel: string): string {
    (if StartsWith(baseDir, "/") then "/" else "") + Join(Resolve(PathParts(baseDir), PathParts(rel)), "/")
  }

  /** `normalizeJoin`, with its loop pushing and popping segments. */
  method NormalizeJoin(baseDir: string, rel: string) returns (r: string)
    ensures r == JoinedPath(baseDir, rel)
    ensures StartsWith(r, "/") <==> StartsWith(baseDir, "/")
  {
    var relParts := PathParts(rel);
    var out := PathParts(baseDir);
    var i := 0;
    while i < |relParts|
      invariant 0 <= i <= |relParts|
      invariant Resolve(out, relParts[i..]) == Resolve(PathParts(baseDir), relParts)
    {
      var part := relParts[i];
      assert relParts[i..][1..] == relParts[i + 1..];
      if part == "." || part == "" {
      } else if part == ".." {
        if out != [] {
          out := out[..|out| - 1];
        }
      } else {
        out := out + [part];
      }
      i := i + 1;
    }
    r := (if StartsWith(baseDir, "/") then "/" else "") + Join(out, "/");
    JoinedPathRooting(baseDir, rel);
  }

  /** A segment that is neither `.`, `..` nor empty. */
  predicate Plain(x: string) { x != "." && x != ".." && x != "" }

  /** Resolving keeps genuine segments: every stack element is a segment, and plain when the stack's were. */
  lemma {:induction false} ResolveKeepsParts(out: seq<string>, rel: seq<string>)
    requires AllParts(out) && AllParts(rel)
    ensures AllParts(Resolve(out, rel))
    ensures (forall i :: 0 <= i < |out| ==> Plain(out[i])) ==>
      forall i :: 0 <= i < |Resolve(out, rel)| ==> Plain(Resolve(out, rel)[i])
    decreases |rel|
  {
    if rel != [] {
      ResolveKeepsParts(ApplyPart(out, rel[0]), rel[1..]);
    }
  }

  lemma JoinedPathRooting(baseDir: string, rel: string)
    ensures StartsWith(JoinedPath(baseDir, rel), "/") <==> StartsWith(baseDir, "/")
  {
    ResolveKeepsParts(PathParts(baseDir), PathParts(rel));
    JoinedPartsNotRooted(Resolve(PathParts(baseDir), PathParts(rel)));
  }

  /**
   * The joined path's segments are the resolved ones, and none of them is
   * `.`, `..` or empty when the base directory has none.
   */
  lemma JoinedPathSegments(baseDir: string, rel: string)
    ensures PathParts(JoinedPath(baseDir, rel)) == Resolve(PathParts(baseDir), PathParts(rel))
    ensures (forall i :: 0 <= i < |PathParts(baseDir)| ==> Plain(PathParts(baseDir)[i])) ==>
      forall i :: 0 <= i < |PathParts(JoinedPath(baseDir, rel))| ==> Plain(PathParts(JoinedPath(baseDir, rel))[i])
  {
    var out := Resolve(PathParts(baseDir), PathParts(rel));
    ResolveKeepsParts(PathParts(baseDir), PathParts(rel));
    PartsOfJoin(out);
    if StartsWith(baseDir, "/") {
      PartsAfterSlash(Join(out, "/"));
    } else {
      assert JoinedPath(baseDir, rel) == Join(out, "/");
    }
  }

  /** Resolving `a` then `b` is resolving `a + b`. */
  lemma {:induction false} ResolveAppend(out: seq<string>, a: seq<string>, b: seq<string>)
    ensures Resolve(out, a + b) == Resolve(Resolve(out, a), b)
    decreases |a|
  {
    if a == [] {
      assert a + b == b;
    } else {
      assert (a + b)[0] == a[0];
      assert (a + b)[1..] == a[1..] + b;
      ResolveAppend(ApplyPart(out, a[0]), a[1..], b);
    }
  }

  /** `..` undoes a segment and does nothing on an empty stack. */
  lemma ParentUndoesChild(out: seq<string>, x: string)
    requires Plain(x)
    ensures Resolve(out + [x], [".."]) == out
    ensures Resolve([], [".."]) == []
  {
    assert (out + [x])[..|out|] == out;
  }

  /**
   * `base.replace(/\.[^/.]+$/, '')`: a final `.` followed by at least one
   * character other than `/` and `.` is removed together with them.
   */
  function StripExtension(base: string): (r: string)
    ensures StartsWith(base, r)
    ensures r != base ==> '.' !in base[|r| + 1..] && |base| >= |r| + 2 && base[|r|] == '.'
  {
    var i := LastIndexOf(base, '.');
    if i >= 0 && i + 1 < |base| && '/' !in base[i + 1..] then base[..i] else base
  }

  /** `getMarkdownAssetDir`: where a pasted image of the note is saved, absolute and relative to the workspace. */
  datatype AssetDir = AssetDir(absDir: string, relDir: string)

  const AssetsPrefix: string := "/.xnote_assets/"

  function MarkdownAssetDir(workspacePath: string, filePath: string): AssetDir {
    var rel := AssetsPrefix + AssetStem(filePath);
    AssetDir(workspacePath + rel, rel)
  }

  /** The folder's name: the note's base name without its extension, or `note` when that is empty. */
  function AssetStem(filePath: string): (stem: string)
    ensures stem != ""
    ensures stem == "note" || StartsWith(Basename(filePath), stem)
  {
    var stripped := StripExtension(Basename(filePath));
    if stripped == "" then "note" else stripped
  }

  /** The folder lies under `/.xnote_assets/` in the workspace and is named after the note. */
  lemma MarkdownAssetDirSpec(workspacePath: string, filePath: string)
    ensures var r := MarkdownAssetDir(workspacePath, filePath);
      StartsWith(r.relDir, AssetsPrefix) && |r.relDir| > |AssetsPrefix|
      && r.absDir == workspacePath + r.relDir
      && (r.relDir[|AssetsPrefix|..] == "note" || StartsWith(Basename(filePath), r.relDir[|AssetsPrefix|..]))
  {
    var stem := AssetStem(filePath);
    assert (AssetsPrefix + stem)[|AssetsPrefix|..] == stem;
    assert (AssetsPrefix + stem)[..|AssetsPrefix|] == AssetsPrefix;
  }

  /** `getMimeByPath`: the image type of the path's extension, compared lower-cased. */
  function MimeByPath(p: string): string {
    MimeOfLower(ToLower(p))
  }

  /** The type for an already lower-cased path: a known image type exactly for the image extensions. */
  function MimeOfLower(lower: string): (r: string)
    ensures r != "application/octet-stream" <==> exists e :: e in ImageExtensions && EndsWith(lower, e)
  {
    if EndsWith(lower, ".png") then "image/png"
    else if EndsWith(lower, ".jpg") || EndsWith(lower, ".jpeg") then "image/jpeg"
    else if EndsWith(lower, ".gif") then "image/gif"
    else if EndsWith(lower, ".webp") then "image/webp"
    else if EndsWith(lower, ".bmp") then "image/bmp"
    else if EndsWith(lower, ".svg") then "image/svg+xml"
    else "application/octet-stream"
  }

  const ImageExtensions: set<string> := {".png", ".jpg", ".jpeg", ".gif", ".webp", ".bmp", ".svg"}

  lemma LowerOfUpper(p: string)
    ensures ToLower(ToUpper(p)) == ToLower(p)
  {
  }

  /** The type does not depend on the case of the path. */
  lemma MimeIgnoresCase(p: string)
    ensures MimeByPath(ToUpper(p)) == MimeByPath(p)
  {
    LowerOfUpper(p);
    var a := ToLower(ToUpper(p));
    assert a == ToLower(p);
  }

  /** `/^(https?:|data:|blob:|tauri:|asset:)/i`: a source that names no local file. */
  predicate IsRemoteSource(s: string) {
    var lower := ToLower(s);
    StartsWith(lower, "http:") || StartsWith(lower, "https:") || StartsWith(lower, "data:")
    || StartsWith(lower, "blob:") || StartsWith(lower, "tauri:") || StartsWith(lower, "asset:")
  }

  /** The leading `/` characters removed. */
  function DropSlashes(s: string): (r: string)
    ensures r == [] || r[0] != '/'
    ensures |r| <= |s| && r == s[|s| - |r|..]
  {
    if s != [] && s[0] == '/' then
      var t := DropSlashes(s[1..]);
      assert s[1..][|s| - 1 - |t|..] == s[|s| - |t|..];
      t
    else s
  }

  /** `src.replace(/^\.\/+/, '')`. */
  function DropDotSlash(s: string): string {
    if |s| >= 2 && s[0] == '.' && s[1] == '/' then DropSlashes(s[1..]) else s
  }

  /**
   * The `absPath` of a markdown image: no path for a missing source or note
   * or a remote source; an asset path is placed in the workspace (none
   * without a workspace); another absolute path is kept; a relative one is
   * joined to the note's directory. The source is taken as already URI-decoded.
   */
  function ImageAbsPath(src: string, notePath: Option<string>, workspacePath: string): (r: Option<string>)
    ensures src == "" || notePath.None? || IsRemoteSource(src) ==> r.None?
    ensures src != "" && notePath.Some? && !IsRemoteSource(src) && StartsWith(src, AssetsPrefix) ==>
      r == (if workspacePath == "" then None else Some(workspacePath + src))
    ensures (src != "" && notePath.Some? && !IsRemoteSource(src) && !StartsWith(src, AssetsPrefix)
             && StartsWith(src, "/")) ==> r == Some(src)
  {
    if src == "" || notePath.None? then None
    else if IsRemoteSource(src) then None
    else if StartsWith(src, AssetsPrefix) then
      if workspacePath == "" then None else Some(workspacePath + src)
    else
      var baseDir := Dirname(notePath.value);
      if StartsWith(src, "/") then Some(src) else Some(JoinedPath(baseDir, DropDotSlash(src)))
  }

  /** A relative image source resolves to a path rooted like the note's own path. */
  lemma RelativeImageRooting(src: string, notePath: string, workspacePath: string)
    requires src != "" && !IsRemoteSource(src) && !StartsWith(src, "/")
    ensures ImageAbsPath(src, Some(notePath), workspacePath).Some?
    ensures StartsWith(ImageAbsPath(src, Some(notePath), workspacePath).value, "/") <==> StartsWith(notePath, "/")
  {
    NotUnderAssets(src);
    assert ImageAbsPath(src, Some(notePath), workspacePath)
      == Some(JoinedPath(Dirname(notePath), DropDotSlash(src)));
    JoinedPathRooting(Dirname(notePath), DropDotSlash(src));
  }

  lemma NotUnderAssets(src: string)
    requires !StartsWith(src, "/")
    ensures !StartsWith(src, AssetsPrefix)
  {
    if |src| >= |AssetsPrefix| {
      assert src[..1] != "/";
      assert src[..|AssetsPrefix|][..1] == src[..1];
      assert AssetsPrefix[..1] == "/";
    }
  }

  /**
   * The link inserted for a pasted image, `relDir/filename`, resolves to the
   * file saved under `absDir` whenever there is a workspace.
   */
  lemma PastedImageResolves(workspacePath: string, filePath: string, notePath: string, filename: string)
    requires workspacePath != ""
    ensures ImageAbsPath(MarkdownAssetDir(workspacePath, filePath).relDir + "/" + filename, Some(notePath), workspacePath)
      == Some(MarkdownAssetDir(workspacePath, filePath).absDir + "/" + filename)
  {
    var dirs := MarkdownAssetDir(workspacePath, filePath);
    MarkdownAssetDirSpec(workspacePath, filePath);
    var src := dirs.relDir + "/" + filename;
    assert src[..|AssetsPrefix|] == dirs.relDir[..|AssetsPrefix|];
    assert StartsWith(src, AssetsPrefix);
    NotRemote(src);
    Regroup(workspacePath, dirs.relDir, filename);
  }

  lemma Regroup(w: string, d: string, f: string)
    ensures w + (d + "/" + f) == w + d + "/" + f
  {
    assert d + "/" + f == d + ("/" + f);
    assert w + (d + ("/" + f)) == (w + d) + ("/" + f);
  }

  lemma NotRemote(src: string)
    requires src != [] && src[0] == '/'
    ensures !IsRemoteSource(src)
  {
    var lower := ToLower(src);
    assert lower[0] == '/';
  }

  /** `${fileKey}:mermaid:${idx}:${hashString(code)}`. */
  function DiagramKey(fileKey: string, idx: nat, code: string): string {
    fileKey + ":mermaid:" + NatToString(idx) + ":" + ToHex(Fnv(code) as nat)
  }

  /** Within one note, blocks at different positions never share a key. */
  lemma DiagramKeysDistinct(fileKey: string, i: nat, j: nat, c: string, d: string)
    requires i != j
    ensures DiagramKey(fileKey, i, c) != DiagramKey(fileKey, j, d)
  {
    var pre := fileKey + ":mermaid:";
    var a := ":" + ToHex(Fnv(c) as nat);
    var b := ":" + ToHex(Fnv(d) as nat);
    KeyShape(pre, NatToString(i), ToHex(Fnv(c) as nat));
    KeyShape(pre, NatToString(j), ToHex(Fnv(d) as nat));
    IndexTagsDistinct(i, j, a, b);
    PrefixCancel(pre, NatToString(i) + a, NatToString(j) + b);
  }

  lemma KeyShape(pre: string, n: string, h: string)
    ensures pre + n + ":" + h == pre + (n + (":" + h))
  {
    assert pre + n + ":" + h == (pre + n) + (":" + h);
  }

  lemma PrefixCancel(pre: string, x: string, y: string)
    requires x != y
    ensures pre + x != pre + y
  {
    assert (pre + x)[|pre|..] == x;
    assert (pre + y)[|pre|..] == y;
  }

  /** A number's digits followed by a colon determine the number. */
  lemma IndexTagsDistinct(i: nat, j: nat, a: string, b: string)
    requires i != j && a != [] && a[0] == ':' && b != [] && b[0] == ':'
    ensures NatToString(i) + a != NatToString(j) + b
  {
    DigitRunAppend(NatToString(i), a);
    DigitRunAppend(NatToString(j), b);
    DigitsValueOfNatToString(i);
    DigitsValueOfNatToString(j);
  }

  /** `mermaidBlockIndexRef`: the number of mermaid blocks keyed since the render began. */
  class BlockCounter {
    var next: nat

    constructor()
      ensures next == 0
    {
      next := 0;
    }

    /** The render resets the counter before the blocks are drawn. */
    method Reset()
      modifies this
      ensures next == 0
    {
      next := 0;
    }

    /** A mermaid block takes the next index, and its key carries it. */
    method KeyFor(selectedPath: Option<string>, code: string) returns (key: string)
      modifies this
      ensures next == old(next) + 1
      ensures key == DiagramKey(FileKey(selectedPath), old(next), code)
    {
      var idx := next;
      next := next + 1;
      key := DiagramKey(FileKey(selectedPath), idx, code);
    }
  }

  /** `selectedFile?.path ? String(selectedFile.path) : 'unknown'`. */
  function FileKey(selectedPath: Option<string>): string {
    if selectedPath.Some? && selectedPath.value != "" then selectedPath.value else "unknown"
  }
}
