/**
 * `codeForRender` and `buildCodeWithInitOverrides` in `MermaidDiagram.tsx`:
 * the diagram source gets a single leading `%%{init: …}%%` directive whose
 * configuration is the existing one with the overrides upserted.
 */
module MermaidRewrite {
  import opened Common
  import opened Strings
  import opened MermaidDirective
  import opened MermaidInit

  /** `code.replace(/\n$/, '')`: one final line feed is dropped. */
  function NormalizeCode(code: string): (r: string)
    ensures EndsWith(code, "\n") ==> r + "\n" == code
    ensures !EndsWith(code, "\n") ==> r == code
  {
    if |code| > 0 && code[|code| - 1] == '\n' then code[..|code| - 1] else code
  }

  /**
   * Where the existing configuration text ends: just before the `}` of the
   * closing `}%%`, or, with `keepCloser`, just after it.
   */
  function ConfigEnd(end: nat, keepCloser: bool): nat {
    if keepCloser then end + 1 else end
  }

  /**
   * The existing configuration text: from after `%%{init:` to `ConfigEnd`;
   * `{}` when there is no complete leading directive.
   */
  function ExistingConfig(code: string, keepCloser: bool): string {
    match DirectiveEnd(code)
    case None => "{}"
    case Some(end) => code[Lead(code) + |InitOpen|..ConfigEnd(end, keepCloser)]
  }

  /** What follows the directive ending at `end`, without leading directives and white space. */
  function RestAfter(code: string, end: nat): string
    requires end + |InitClose| <= |code|
  {
    TrimStart(Stripped(code[end + |InitClose|..]), Js)
  }

  /**
   * The rewrite with the configuration slice ending as `ConfigEnd` says: with
   * no complete leading directive, a fresh one from `{}` goes before the
   * unchanged source; otherwise the leading white space is kept, the
   * directive is rebuilt from the existing configuration, and what followed it
   * loses its leading directives and its leading white space.
   */
  function RewriteWith(code: string, ov: seq<Override>, keepCloser: bool): string
    requires PlainKeys(ov)
  {
    match DirectiveEnd(code)
    case None => Directive("{}", ov) + "\n" + code
    case Some(end) =>
      code[..Lead(code)] + Directive(ExistingConfig(code, keepCloser), ov) + "\n" + RestAfter(code, end)
  }

  /**
   * The rewrite as the component performs it: the existing configuration is
   * `slice(idx + 8, end + 1)` and so carries the `}` of the closing `}%%`.
   */
  function RewriteAsWritten(code: string, ov: seq<Override>): (r: string)
    requires PlainKeys(ov)
    ensures DirectiveEnd(r).Some?
  {
    RewriteHasDirective(code, ov, true);
    RewriteWith(code, ov, true)
  }

  /** The rewrite with the configuration ending before the closing `}%%`. */
  function Rewrite(code: string, ov: seq<Override>): (r: string)
    requires PlainKeys(ov)
    ensures DirectiveEnd(r).Some?
  {
    RewriteHasDirective(code, ov, false);
    RewriteWith(code, ov, false)
  }

  /** `buildCodeWithInitOverrides`, with the configuration slice ending before `}%%`. */
  method BuildCodeWithInitOverrides(inputCode: string, ov: seq<Override>) returns (out: string)
    requires PlainKeys(ov)
    ensures out == Rewrite(inputCode, ov)
  {
    var idx := Lead(inputCode);
    var end := -1;
    if StartsWith(inputCode[idx..], InitOpen) {
      end := IndexOfFrom(inputCode, InitClose, idx);
    }
    if end == -1 {
      assert DirectiveEnd(inputCode).None?;
      var d := BuildInitDirective("{}", ov);
      out := d + "\n" + inputCode;
    } else {
      assert DirectiveEnd(inputCode) == Some(end);
      out := ReplaceDirective(inputCode, ov, idx, end);
    }
  }

  /** The branch with a complete leading directive that closes at `end`. */
  method ReplaceDirective(inputCode: string, ov: seq<Override>, idx: nat, end: nat) returns (out: string)
    requires PlainKeys(ov) && idx == Lead(inputCode) && DirectiveEnd(inputCode) == Some(end)
    ensures out == Rewrite(inputCode, ov)
  {
    var existing := inputCode[idx + |InitOpen|..end];
    assert existing == ExistingConfig(inputCode, false);
    var rest := StripLeadingInitDirectives(inputCode[end + |InitClose|..]);
    var d := BuildInitDirective(existing, ov);
    out := inputCode[..idx] + d + "\n" + TrimStart(rest, Js);
    RewriteSome(inputCode, ov, false, end);
  }

  /** `codeForRender`: the display overrides applied to the normalised source. */
  function CodeForRender(code: string): (r: string)
    ensures DirectiveEnd(r).Some?
  {
    DisplayKeysPlain();
    Rewrite(NormalizeCode(code), DisplayOverrides)
  }

  lemma DisplayKeysPlain()
    ensures PlainKeys(DisplayOverrides)
  {
    assert IsWordChar('l') && IsWordChar('h') && IsWordChar('S');
  }

  /**
   * The overrides of the export path: the look, the seed (not a string in the
   * classic look, so skipped), `htmlLabels` and the quoted font family.
   */
  function ExportOverrides(handDrawn: bool, fontFamilyLiteral: string): seq<Override> {
    [ Override("look", Some(if handDrawn then "\"handDrawn\"" else "\"classic\"")),
      Override("handDrawnSeed", if handDrawn then Some("1") else None),
      Override("htmlLabels", Some("false")),
      Override("fontFamily", Some(fontFamilyLiteral)) ]
  }

  /**
   * Without a complete leading directive the result is a directive built from
   * `{}`, a line feed and the source unchanged, whichever slice is used.
   */
  lemma RewriteWithoutDirective(code: string, ov: seq<Override>)
    requires PlainKeys(ov)
    requires !StartsWith(code[Lead(code)..], InitOpen)
      || forall p: nat :: Lead(code) <= p ==> !OccursAt(code, InitClose, p)
    ensures Rewrite(code, ov) == Directive("{}", ov) + "\n" + code
    ensures RewriteAsWritten(code, ov) == Rewrite(code, ov)
  {
  }

  /**
   * `codeForRender` on a source without a complete leading directive: the
   * directive carries exactly the look and the seed, and the source follows
   * without its final line feed.
   */
  lemma CodeForRenderFresh(code: string)
    requires DirectiveEnd(NormalizeCode(code)).None?
    ensures PlainKeys(DisplayOverrides)
    ensures CodeForRender(code) == Directive("{}", DisplayOverrides) + "\n" + NormalizeCode(code)
    ensures ApplyOverrides(InitConfig("{}"), DisplayOverrides)
      == "{\"look\": \"handDrawn\", \"handDrawnSeed\": 1}"
  {
    DisplayKeysPlain();
    EmptyTrimmed("{}");
    DisplayConfigFromEmpty("{}");
  }

  lemma EmptyTrimmed(e: string)
    requires e == "{}"
    ensures Trim(e, Js) == "{}"
  {
    TrimIdentity(e, Js);
  }

  /** The rewritten source always opens, after white space, with a complete directive. */
  lemma RewriteHasDirective(code: string, ov: seq<Override>, keepCloser: bool)
    requires PlainKeys(ov)
    ensures DirectiveEnd(RewriteWith(code, ov, keepCloser)).Some?
  {
    match DirectiveEnd(code)
    case None =>
      FollowedByDirective([], Directive("{}", ov), code, ApplyOverrides(InitConfig("{}"), ov));
    case Some(end) =>
      RewriteSome(code, ov, keepCloser, end);
      LeadSpec(code);
      var existing := ExistingConfig(code, keepCloser);
      FollowedByDirective(code[..Lead(code)], Directive(existing, ov), RestAfter(code, end),
        ApplyOverrides(InitConfig(existing), ov));
  }

  /** The rewrite of a text with a complete leading directive ending at `end`. */
  lemma RewriteSome(code: string, ov: seq<Override>, keepCloser: bool, end: nat)
    requires PlainKeys(ov) && DirectiveEnd(code) == Some(end)
    ensures RewriteWith(code, ov, keepCloser)
      == code[..Lead(code)] + Directive(ExistingConfig(code, keepCloser), ov) + "\n" + RestAfter(code, end)
    ensures Lead(code) == 0 ==>
      RewriteWith(code, ov, keepCloser) == Directive(ExistingConfig(code, keepCloser), ov) + "\n" + RestAfter(code, end)
  {
    var d := Directive(ExistingConfig(code, keepCloser), ov);
    assert code[..0] + d == d;
  }

  /** White space `w`, a directive `d` with configuration `c`, a line feed, then anything. */
  lemma FollowedByDirective(w: string, d: string, tail: string, c: string)
    requires d == InitOpen + " " + c + InitClose
    requires forall i :: 0 <= i < |w| ==> IsSpace(w[i], Js)
    ensures DirectiveEnd(w + d + "\n" + tail).Some?
    ensures w == [] ==> DirectiveEnd(d + "\n" + tail).Some?
  {
    var r := w + d + "\n" + tail;
    assert r[..|w + d|] == w + d;
    DirectiveOpensText(r, w, d);
    if w == [] {
      assert r == d + "\n" + tail;
    }
  }

  /**
   * A text made of white space `w`, then a directive `d`, then anything, has a
   * complete directive after its leading white space.
   */
  lemma DirectiveOpensText(r: string, w: string, d: string)
    requires exists c :: d == InitOpen + " " + c + InitClose
    requires StartsWith(r, w + d)
    requires forall i :: 0 <= i < |w| ==> IsSpace(w[i], Js)
    ensures DirectiveEnd(r).Some?
  {
    var c :| d == InitOpen + " " + c + InitClose;
    assert d == InitOpen + (" " + c + InitClose);
    assert r[..|w|] == w;
    assert r[|w|] == d[0] == '%';
    LeadIs(r, |w|);
    assert r[..|w + d|] == w + d;
    assert forall i :: 0 <= i < |InitOpen| ==> r[|w|..][i] == r[|w| + i] == (w + d)[|w| + i] == d[i];
    assert r[|w|..][..|InitOpen|] == d[..|InitOpen|] == InitOpen;
    var p := |w| + |d| - |InitClose|;
    assert r[p..p + |InitClose|] == d[|d| - |InitClose|..] == InitClose;
    assert OccursAt(r, InitClose, p);
  }

  // ---------------------------------------------------------------------------
  // The configuration slice
  // ---------------------------------------------------------------------------

  /**
   * For a source opening with `%%{init: cfg}%%` (the form the component itself
   * writes), where `cfg` is trimmed and holds no `}%%`, the closing `}%%` is
   * the one right after `cfg`.
   */
  lemma DirectiveAfterConfig(code: string, cfg: string, rest: string)
    requires code == InitOpen + " " + cfg + InitClose + rest
    requires forall p: nat :: !OccursAt(cfg, InitClose, p)
    ensures Lead(code) == 0
    ensures DirectiveEnd(code) == Some(|InitOpen| + 1 + |cfg|)
  {
    var n := |InitOpen| + 1 + |cfg|;
    assert code[0] == '%';
    LeadIs(code, 0);
    assert code[..|InitOpen|] == InitOpen;
    assert code[0..] == code;
    assert code[n..n + |InitClose|] == InitClose;
    forall q: nat | q < n
      ensures !OccursAt(code, InitClose, q)
    {
      if q + |InitClose| <= |code| {
        var w := code[q..q + |InitClose|];
        assert w[0] == code[q] && w[1] == code[q + 1] && w[2] == code[q + 2];
        if q < |InitOpen| + 1 {
          assert code[q] == (InitOpen + " ")[q];
        } else if q + |InitClose| <= n {
          assert w == cfg[q - |InitOpen| - 1..q - |InitOpen| - 1 + |InitClose|];
          assert !OccursAt(cfg, InitClose, q - |InitOpen| - 1);
        } else if q + 2 == n {
          assert code[q + 2] == '}';
        } else {
          assert code[q + 1] == '}';
        }
      }
    }
    IndexOfIs(code, InitClose, 0, n);
  }

  /** One leading space before a trimmed text is all that trimming removes. */
  lemma TrimAfterSpace(x: string)
    requires x != [] && !IsSpace(x[0], Js) && !IsSpace(x[|x| - 1], Js)
    ensures InitConfig(" " + x) == x
  {
    TrimIdentity(x, Js);
    assert (" " + x)[1..] == x;
  }

  /** The pieces of `%%{init: cfg}%%` followed by `rest` that the rewrite takes apart. */
  lemma ConfigPieces(code: string, cfg: string, rest: string)
    requires code == InitOpen + " " + cfg + InitClose + rest
    requires forall p: nat :: !OccursAt(cfg, InitClose, p)
    ensures DirectiveEnd(code) == Some(|InitOpen| + 1 + |cfg|)
    ensures code[..Lead(code)] == []
    ensures ExistingConfig(code, false) == " " + cfg
    ensures ExistingConfig(code, true) == " " + (cfg + "}")
    ensures RestAfter(code, |InitOpen| + 1 + |cfg|) == TrimStart(Stripped(rest), Js)
  {
    var n := |InitOpen| + 1 + |cfg|;
    DirectiveAfterConfig(code, cfg, rest);
    assert code[|InitOpen|..n] == " " + cfg;
    assert code[|InitOpen|..n + 1] == " " + (cfg + "}");
    assert code[n + |InitClose|..] == rest;
  }

  /**
   * As written, the configuration taken from `%%{init: cfg}%%` is `cfg` with
   * the directive's own closing brace after it, and that is what the new
   * directive is built from.
   */
  lemma AsWrittenKeepsCloser(code: string, cfg: string, rest: string, ov: seq<Override>)
    requires PlainKeys(ov)
    requires code == InitOpen + " " + cfg + InitClose + rest
    requires cfg != [] && !IsSpace(cfg[0], Js) && !IsSpace(cfg[|cfg| - 1], Js)
    requires forall p: nat :: !OccursAt(cfg, InitClose, p)
    ensures InitConfig(ExistingConfig(code, true)) == cfg + "}"
    ensures RewriteAsWritten(code, ov)
      == Directive(cfg + "}", ov) + "\n" + TrimStart(Stripped(rest), Js)
  {
    ConfigPieces(code, cfg, rest);
    TrimAfterSpace(cfg + "}");
    ConfigDirective(" " + (cfg + "}"), cfg + "}", ov);
    RewriteSome(code, ov, true, |InitOpen| + 1 + |cfg|);
  }

  /**
   * With the slice ending before `}%%`, the configuration of
   * `%%{init: cfg}%%` is `cfg` itself, so the new directive is built from
   * exactly the configuration the old one held.
   */
  lemma ConfigRoundTrip(code: string, cfg: string, rest: string, ov: seq<Override>)
    requires PlainKeys(ov)
    requires code == InitOpen + " " + cfg + InitClose + rest
    requires cfg != [] && !IsSpace(cfg[0], Js) && !IsSpace(cfg[|cfg| - 1], Js)
    requires forall p: nat :: !OccursAt(cfg, InitClose, p)
    ensures InitConfig(ExistingConfig(code, false)) == cfg
    ensures Rewrite(code, ov) == Directive(cfg, ov) + "\n" + TrimStart(Stripped(rest), Js)
  {
    ConfigPieces(code, cfg, rest);
    TrimAfterSpace(cfg);
    ConfigDirective(" " + cfg, cfg, ov);
    RewriteSome(code, ov, false, |InitOpen| + 1 + |cfg|);
  }

  /** The directive built from a text depends only on its trimmed configuration. */
  lemma ConfigDirective(existing: string, cfg: string, ov: seq<Override>)
    requires PlainKeys(ov) && InitConfig(existing) == cfg && cfg != []
    ensures Directive(existing, ov) == Directive(cfg, ov)
  {
    TrimIdentity(cfg, Js);
  }

  /**
   * The directive the component writes for an empty configuration,
   * `%%{init: {}}%%`, read back: as written the display overrides turn the
   * configuration into the unbalanced `{}, "look": …}`; with the slice ending
   * before `}%%` they give the same two entries as the first time.
   */
  lemma EmptyDirectiveReread(code: string, rest: string)
    requires code == InitOpen + " " + "{}" + InitClose + rest
    ensures PlainKeys(DisplayOverrides)
    ensures ApplyOverrides(InitConfig(ExistingConfig(code, true)), DisplayOverrides)
      == "{}, \"look\": \"handDrawn\", \"handDrawnSeed\": 1}"
    ensures ApplyOverrides(InitConfig(ExistingConfig(code, false)), DisplayOverrides)
      == "{\"look\": \"handDrawn\", \"handDrawnSeed\": 1}"
  {
    EmptyDirectiveConfigs(code, "{}", rest);
    DisplayConfigFromEmpty(ExistingConfig(code, false));
    DisplayConfigAfterCloser(InitConfig(ExistingConfig(code, true)));
  }

  /** The two configuration texts read from `%%{init: {}}%%`. */
  lemma EmptyDirectiveConfigs(code: string, cfg: string, rest: string)
    requires cfg == "{}" && code == InitOpen + " " + cfg + InitClose + rest
    ensures Trim(ExistingConfig(code, false), Js) == "{}"
    ensures InitConfig(ExistingConfig(code, true)) == "{}" + "}"
  {
    assert InitClose[1] == '%' && '%' !in cfg;
    CharAbsent(cfg, InitClose, 1);
    ConfigPieces(code, cfg, rest);
    SpacedEmptyConfigs();
  }

  /** ` {}` trims to `{}`, and ` {}}` reads as the configuration `{}}`. */
  lemma SpacedEmptyConfigs()
    ensures Trim(" " + "{}", Js) == "{}"
    ensures InitConfig(" " + ("{}" + "}")) == "{}" + "}"
  {
    TrimAfterSpace("{}");
    TrimAfterSpace("{}" + "}");
  }

  lemma DisplayConfigAfterCloser(c0: string)
    requires c0 == "{}" + "}"
    ensures PlainKeys(DisplayOverrides)
    ensures ApplyOverrides(c0, DisplayOverrides) == "{}, \"look\": \"handDrawn\", \"handDrawnSeed\": 1}"
  {
    var look, seed := DisplayOverrides[0], DisplayOverrides[1];
    ApplyTwo(c0, look, seed);
    LookBeforeCloser(c0, look.key, look.value.value);
    SeedBeforeCloser(ApplyOne(c0, look), seed.key, seed.value.value);
  }

  lemma LookBeforeCloser(c0: string, key: string, value: string)
    requires c0 == "{}" + "}" && key == "look" && value == "\"handDrawn\""
    ensures UpsertInitKey(c0, key, value) == "{}, \"look\": \"handDrawn\"}"
  {
    assert !IsSpace(c0[1], Js);
    assert c0[..|c0| - 1] + ((", " + KeyEntry(key, value)) + "}") == "{}, \"look\": \"handDrawn\"}";
    assert key[0] == 'l' && 'l' !in c0;
    CharAbsent(c0, key, 0);
    UpsertNewKey(c0, key, value);
  }

  lemma SeedBeforeCloser(c1: string, key: string, value: string)
    requires c1 == "{}, \"look\": \"handDrawn\"}" && key == "handDrawnSeed" && value == "1"
    ensures UpsertInitKey(c1, key, value) == "{}, \"look\": \"handDrawn\", \"handDrawnSeed\": 1}"
  {
    SeedNotEmpty(c1);
    SeedText(c1, key, value);
    assert key[9] == 'S' && 'S' !in c1;
    CharAbsent(c1, key, 9);
    UpsertNewKey(c1, key, value);
  }

  lemma SeedNotEmpty(c1: string)
    requires c1 == "{}, \"look\": \"handDrawn\"}"
    ensures |c1| >= 2 && c1[0] == '{' && c1[|c1| - 1] == '}' && !IsEmptyObject(c1)
  {
    assert !IsSpace(c1[1], Js);
  }

  lemma SeedText(c1: string, key: string, value: string)
    requires c1 == "{}, \"look\": \"handDrawn\"}" && key == "handDrawnSeed" && value == "1"
    ensures c1[..|c1| - 1] + ((", " + KeyEntry(key, value)) + "}")
      == "{}, \"look\": \"handDrawn\", \"handDrawnSeed\": 1}"
  {
  }
}
