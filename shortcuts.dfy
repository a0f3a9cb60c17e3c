/**
 * Keyboard shortcuts as the settings dialog records them and the sidebar
 * matches them: text such as `Cmd+Shift+K`, split on `+`, with the modifiers
 * `cmd`, `ctrl`, `alt` and `shift` recognised in any letter case and one main
 * key. Letter case is mapped on ASCII letters only.
 */
module Shortcuts {
  import opened Common
  import opened Strings

  datatype Mod = Cmd | Ctrl | Alt | Shift

  /** The modifier a lower-cased part names, if any. */
  function ModNamed(k: string): Option<Mod> {
    if k == "cmd" then Some(Cmd)
    else if k == "ctrl" then Some(Ctrl)
    else if k == "alt" then Some(Alt)
    else if k == "shift" then Some(Shift)
    else None
  }

  predicate IsModifierPart(p: string) {
    ModNamed(ToLower(p)).Some?
  }

  /** `s.split('+').filter(Boolean)`. */
  function Parts(s: string): seq<string> {
    NonEmpty(Split(s, '+'))
  }

  // ---------------------------------------------------------------------
  // normalizeMainKey
  // ---------------------------------------------------------------------

  /**
   * `normalizeMainKey`: '' stays '', a space is `Space`, one character is
   * upper-cased, an `Arrow…` name loses the `Arrow`, and any other name gets
   * an upper-case first letter.
   */
  function NormalizeMainKey(key: string): (r: string)
    ensures key == "" ==> r == ""
    ensures |key| == 1 && key != " " ==> |r| == 1 && r[0] == ToUpperChar(key[0])
    ensures StartsWith(key, "Arrow") ==> key == "Arrow" + r
    ensures |key| > 1 && !StartsWith(key, "Arrow") ==> |r| == |key| && r[1..] == key[1..] && r[0] == ToUpperChar(key[0])
  {
    if key == "" then ""
    else if key == " " then "Space"
    else if |key| == 1 then ToUpper(key)
    else if StartsWith(key, "Arrow") then key[5..]
    else [ToUpperChar(key[0])] + key[1..]
  }

  predicate IsUpperAscii(c: char) { 'A' <= c <= 'Z' }

  /**
   * The shape of a `KeyboardEvent.key` value: one character, or a key name
   * starting with a capital (`Enter`, `F5`, `ArrowUp`).
   */
  predicate KeyName(key: string) {
    |key| <= 1
    || (IsUpperAscii(key[0])
        && (StartsWith(key, "Arrow") ==> |key| > 5 && IsUpperAscii(key[5]) && !StartsWith(key[5..], "Arrow")))
  }

  /** On key names, normalising a second time changes nothing. */
  lemma NormalizeIdempotent(key: string)
    requires KeyName(key)
    ensures NormalizeMainKey(NormalizeMainKey(key)) == NormalizeMainKey(key)
  {
    var r := NormalizeMainKey(key);
    if |key| == 1 && key != " " {
      assert r == [ToUpperChar(key[0])];
    } else if |key| > 1 && StartsWith(key, "Arrow") {
      assert r == key[5..];
      if |r| > 1 {
        assert r[0] == key[5];
      }
    } else if |key| > 1 {
      assert r[0] == key[0];
      assert r == key;
    }
  }

  /** Without the key-name shape it fails: `Arrowup` becomes `up`, then `Up`. */
  lemma NormalizeNotIdempotentInGeneral()
    ensures NormalizeMainKey(NormalizeMainKey("Arrowup")) != NormalizeMainKey("Arrowup")
  {
    assert NormalizeMainKey("Arrowup") == "up";
    assert NormalizeMainKey("up")[0] == 'U';
  }

  // ---------------------------------------------------------------------
  // formatShortcutSymbols
  // ---------------------------------------------------------------------

  /** How one part is shown: a modifier as its symbol, a single character upper-cased, anything else as is. */
  function Symbol(p: string): (r: string)
    ensures p != "" ==> r != ""
  {
    match ModNamed(ToLower(p))
    case Some(Cmd) => "⌘"
    case Some(Ctrl) => "⌃"
    case Some(Alt) => "⌥"
    case Some(Shift) => "⇧"
    case None => if |p| == 1 then ToUpper(p) else p
  }

  /** `xs.map(f).join('')`. */
  function ConcatMap<T>(f: T -> string, xs: seq<T>): string {
    if xs == [] then "" else ConcatMap(f, xs[..|xs| - 1]) + f(xs[|xs| - 1])
  }

  lemma {:induction false} ConcatMapAppend<T>(f: T -> string, a: seq<T>, b: seq<T>)
    ensures ConcatMap(f, a + b) == ConcatMap(f, a) + ConcatMap(f, b)
    decreases |b|
  {
    if b == [] {
      assert a + b == a;
    } else {
      var b' := b[..|b| - 1];
      assert (a + b)[..|a + b| - 1] == a + b';
      ConcatMapAppend(f, a, b');
    }
  }

  /** The symbols of the parts, joined with no separator. */
  function Symbols(parts: seq<string>): string {
    ConcatMap(Symbol, parts)
  }

  /** The lower-case forms of the modifier names `buildShortcutString` writes. */
  lemma ModifierNames()
    ensures ModNamed(ToLower("Cmd")) == Some(Cmd) && Symbol("Cmd") == "⌘"
    ensures ModNamed(ToLower("Ctrl")) == Some(Ctrl) && Symbol("Ctrl") == "⌃"
    ensures ModNamed(ToLower("Alt")) == Some(Alt) && Symbol("Alt") == "⌥"
    ensures ModNamed(ToLower("Shift")) == Some(Shift) && Symbol("Shift") == "⇧"
  {
    LowerIs("Cmd", "cmd");
    LowerIs("Ctrl", "ctrl");
    LowerIs("Alt", "alt");
    LowerIs("Shift", "shift");
  }

  lemma LowerIs(s: string, t: string)
    requires |s| == |t| && forall i :: 0 <= i < |s| ==> ToLowerChar(s[i]) == t[i]
    ensures ToLower(s) == t
  {
  }

  /** `formatShortcutSymbols`: the display form of a shortcut text. */
  method FormatShortcutSymbols(shortcut: string) returns (r: string)
    ensures r == Symbols(Parts(shortcut))
  {
    var parts := Parts(shortcut);
    r := "";
    for i := 0 to |parts|
      invariant r == ConcatMap(Symbol, parts[..i])
    {
      assert parts[..i + 1][..i] == parts[..i];
      r := r + Symbol(parts[i]);
    }
    assert parts[..|parts|] == parts;
  }

  // ---------------------------------------------------------------------
  // parseShortcut / matchShortcut
  // ---------------------------------------------------------------------

  datatype Shortcut = Shortcut(mods: set<Mod>, main: string)

  /** The modifiers the parts name. */
  function ModsOf(parts: seq<string>): set<Mod> {
    if parts == [] then {}
    else
      var last := parts[|parts| - 1];
      ModsOf(parts[..|parts| - 1]) + (if IsModifierPart(last) then {ModNamed(ToLower(last)).value} else {})
  }

  /** The last part that is not a modifier, or '' when there is none. */
  function LastMain(parts: seq<string>): string {
    if parts == [] then ""
    else if IsModifierPart(parts[|parts| - 1]) then LastMain(parts[..|parts| - 1])
    else parts[|parts| - 1]
  }

  /** `parseShortcut` as a value. */
  function Parsed(s: string): Shortcut {
    Shortcut(ModsOf(Parts(s)), NormalizeMainKey(LastMain(Parts(s))))
  }

  /** `parseShortcut`: collects the modifiers into a set and keeps the last other part as the main key. */
  method ParseShortcut(s: string) returns (sc: Shortcut)
    ensures sc == Parsed(s)
  {
    var parts := Parts(s);
    var mods: set<Mod> := {};
    var main := "";
    for i := 0 to |parts|
      invariant mods == ModsOf(parts[..i])
      invariant main == LastMain(parts[..i])
    {
      assert parts[..i + 1][..i] == parts[..i];
      var k := ToLower(parts[i]);
      if ModNamed(k).Some? {
        mods := mods + {ModNamed(k).value};
      } else {
        main := parts[i];
      }
    }
    assert parts[..|parts|] == parts;
    sc := Shortcut(mods, NormalizeMainKey(main));
  }

  /** A key press: the key and which modifiers are held. */
  datatype KeyEvent = KeyEvent(key: string, meta: bool, ctrl: bool, alt: bool, shift: bool)

  predicate Held(ev: KeyEvent, m: Mod) {
    match m
    case Cmd => ev.meta
    case Ctrl => ev.ctrl
    case Alt => ev.alt
    case Shift => ev.shift
  }

  /** `matchShortcut(text)` for the key press `ev`. */
  predicate Matches(text: string, ev: KeyEvent) {
    var sc := Parsed(text);
    var keyOk := sc.main != "" && NormalizeMainKey(ev.key) == sc.main;
    var modsOk :=
      (Cmd !in sc.mods || ev.meta) && (Ctrl !in sc.mods || ev.ctrl)
      && (Alt !in sc.mods || ev.alt) && (Shift !in sc.mods || ev.shift)
      && (Cmd in sc.mods || Ctrl in sc.mods || Alt in sc.mods || Shift in sc.mods);
    keyOk && modsOk
  }

  /** A match needs the main key, every listed modifier, and at least one listed modifier. */
  lemma MatchesIff(text: string, ev: KeyEvent)
    ensures Matches(text, ev) <==>
      Parsed(text).main != "" && NormalizeMainKey(ev.key) == Parsed(text).main
      && Parsed(text).mods != {}
      && forall m :: m in Parsed(text).mods ==> Held(ev, m)
  {
    var mods := Parsed(text).mods;
    if mods != {} {
      var m :| m in mods;
      assert m == Cmd || m == Ctrl || m == Alt || m == Shift;
    }
  }

  /** Holding more modifiers than the shortcut lists never prevents a match. */
  lemma ExtraModifiersAllowed(text: string, ev: KeyEvent, ev': KeyEvent)
    requires Matches(text, ev)
    requires ev'.key == ev.key
    requires (ev.meta ==> ev'.meta) && (ev.ctrl ==> ev'.ctrl) && (ev.alt ==> ev'.alt) && (ev.shift ==> ev'.shift)
    ensures Matches(text, ev')
  {
  }

  // ---------------------------------------------------------------------
  // buildShortcutString and the round trip through parseShortcut
  // ---------------------------------------------------------------------

  /** The held modifiers in the fixed order Cmd, Ctrl, Alt, Shift. */
  function ModTexts(ev: KeyEvent): seq<string> {
    (if ev.meta then ["Cmd"] else []) + (if ev.ctrl then ["Ctrl"] else [])
    + (if ev.alt then ["Alt"] else []) + (if ev.shift then ["Shift"] else [])
  }

  function HeldSet(ev: KeyEvent): set<Mod> {
    (if ev.meta then {Cmd} else {}) + (if ev.ctrl then {Ctrl} else {})
    + (if ev.alt then {Alt} else {}) + (if ev.shift then {Shift} else {})
  }

  /**
   * `buildShortcutString`: the held modifiers and the normalised key joined
   * by `+`; nothing for an empty key or a lone modifier key.
   */
  function BuildShortcut(ev: KeyEvent): (r: Option<string>)
    ensures r.None? <==> NormalizeMainKey(ev.key) in {"", "Meta", "Control", "Alt", "Shift"}
  {
    var main := NormalizeMainKey(ev.key);
    if main == "" || main in ["Meta", "Control", "Alt", "Shift"] then None
    else Some(Join(ModTexts(ev) + [main], "+"))
  }

  /** The parts of a built shortcut are the modifier names followed by the main key. */
  lemma BuiltParts(ev: KeyEvent)
    requires BuildShortcut(ev).Some?
    requires '+' !in NormalizeMainKey(ev.key)
    ensures Parts(BuildShortcut(ev).value) == ModTexts(ev) + [NormalizeMainKey(ev.key)]
  {
    var ps := ModTexts(ev) + [NormalizeMainKey(ev.key)];
    forall i | 0 <= i < |ps|
      ensures '+' !in ps[i] && ps[i] != ""
    {
      if i < |ModTexts(ev)| {
        assert ps[i] in ModTexts(ev);
      }
    }
    SplitJoin(ps, '+');
    NonEmptyKeeps(ps);
  }

  lemma {:induction false} ModsOfModTexts(ts: seq<string>, main: string)
    requires forall i :: 0 <= i < |ts| ==> ts[i] in ["Cmd", "Ctrl", "Alt", "Shift"]
    requires !IsModifierPart(main)
    ensures ModsOf(ts + [main]) == ModsOf(ts)
    ensures LastMain(ts + [main]) == main
  {
    assert (ts + [main])[..|ts|] == ts;
  }

  lemma ModsOfHeld(ev: KeyEvent)
    ensures ModsOf(ModTexts(ev)) == HeldSet(ev)
  {
    ModifierNames();
    var a := OptMods(ev.meta, "Cmd", Cmd);
    var b := OptMods(ev.ctrl, "Ctrl", Ctrl);
    var c := OptMods(ev.alt, "Alt", Alt);
    var d := OptMods(ev.shift, "Shift", Shift);
    assert ModTexts(ev) == a + b + c + d;
    ModsOfAppendOne(a + b + c, d);
    ModsOfAppendOne(a + b, c);
    ModsOfAppendOne(a, b);
  }

  /** The name of one modifier when its flag is set, and the modifiers that names. */
  lemma OptMods(flag: bool, name: string, m: Mod) returns (a: seq<string>)
    requires ModNamed(ToLower(name)) == Some(m)
    ensures a == (if flag then [name] else [])
    ensures ModsOf(a) == (if flag then {m} else {})
    ensures |a| <= 1
  {
    a := if flag then [name] else [];
    if flag {
      assert a[..0] == [];
    }
  }

  lemma ModsOfAppendOne(a: seq<string>, b: seq<string>)
    requires |b| <= 1
    ensures ModsOf(a + b) == ModsOf(a) + ModsOf(b)
  {
    if |b| == 1 {
      assert (a + b)[..|a + b| - 1] == a;
      assert (a + b)[|a + b| - 1] == b[0];
      assert b[..0] == [];
    } else {
      assert a + b == a;
    }
  }

  /**
   * Parsing a recorded shortcut recovers the held modifiers and the main key,
   * as long as the key is not `+` (which the split loses) and is not itself
   * spelled like a modifier.
   */
  lemma ParseBuilt(ev: KeyEvent)
    requires BuildShortcut(ev).Some?
    requires '+' !in NormalizeMainKey(ev.key)
    requires !IsModifierPart(NormalizeMainKey(ev.key))
    ensures Parsed(BuildShortcut(ev).value) == Shortcut(HeldSet(ev), NormalizeMainKey(NormalizeMainKey(ev.key)))
  {
    var main := NormalizeMainKey(ev.key);
    BuiltParts(ev);
    var ts := ModTexts(ev);
    forall i | 0 <= i < |ts|
      ensures ts[i] in ["Cmd", "Ctrl", "Alt", "Shift"]
    {
      assert ts[i] in ts;
    }
    ModsOfModTexts(ts, main);
    ModsOfHeld(ev);
    ModifierNames();
  }

  /** A shortcut recorded from a key press with a modifier held matches that same key press. */
  lemma RecordedMatches(ev: KeyEvent)
    requires BuildShortcut(ev).Some?
    requires KeyName(ev.key)
    requires '+' !in NormalizeMainKey(ev.key)
    requires !IsModifierPart(NormalizeMainKey(ev.key))
    requires ev.meta || ev.ctrl || ev.alt || ev.shift
    ensures Matches(BuildShortcut(ev).value, ev)
  {
    var t := BuildShortcut(ev).value;
    ParseBuilt(ev);
    NormalizeIdempotent(ev.key);
    MatchesHeld(t, ev);
  }

  /** A shortcut whose modifiers are exactly the held ones and whose key is the pressed one matches. */
  lemma MatchesHeld(t: string, ev: KeyEvent)
    requires Parsed(t).main != "" && Parsed(t).main == NormalizeMainKey(ev.key)
    requires Parsed(t).mods == HeldSet(ev)
    requires ev.meta || ev.ctrl || ev.alt || ev.shift
    ensures Matches(t, ev)
  {
  }

  /** The `+` key is lost to the split: `Cmd++` parses to no main key and matches nothing. */
  lemma PlusKeyLost(ev: KeyEvent, other: KeyEvent)
    requires ev.key == "+" && ev.meta && !ev.ctrl && !ev.alt && !ev.shift
    ensures BuildShortcut(ev) == Some("Cmd++")
    ensures Parsed("Cmd++").main == ""
    ensures !Matches("Cmd++", other)
  {
    PlusBuilt(ev);
    PlusParsed();
  }

  lemma PlusBuilt(ev: KeyEvent)
    requires ev.key == "+" && ev.meta && !ev.ctrl && !ev.alt && !ev.shift
    ensures BuildShortcut(ev) == Some("Cmd++")
  {
    assert NormalizeMainKey("+") == "+";
    assert ModTexts(ev) == ["Cmd"];
    assert Join(["Cmd", "+"], "+") == "Cmd++";
  }

  lemma PlusParsed()
    ensures Parsed("Cmd++").main == ""
  {
    PlusParts();
    ModifierNames();
    assert LastMain(["Cmd"]) == LastMain([]);
  }

  lemma PlusParts()
    ensures Parts("Cmd++") == ["Cmd"]
  {
    SplitNoSep("Cmd", '+');
    SplitConcat("Cmd", "+", '+');
    SplitConcat("", "", '+');
    assert "Cmd++" == "Cmd" + ['+'] + "+";
    assert "+" == "" + ['+'] + "";
    assert Split("", '+') == [""];
    assert Split("Cmd++", '+') == ["Cmd", "", ""];
    assert NonEmpty(["", ""]) == NonEmpty([""]);
    assert ["Cmd", "", ""][1..] == ["", ""];
  }

  /** A recorded shortcut is shown as the symbols of its modifiers followed by its key's form. */
  lemma FormatBuilt(ev: KeyEvent)
    requires BuildShortcut(ev).Some?
    requires '+' !in NormalizeMainKey(ev.key)
    ensures Symbols(Parts(BuildShortcut(ev).value)) == Symbols(ModTexts(ev)) + Symbol(NormalizeMainKey(ev.key))
  {
    BuiltParts(ev);
    var ts := ModTexts(ev);
    var main := NormalizeMainKey(ev.key);
    ConcatMapAppend(Symbol, ts, [main]);
    SymbolsOne([main]);
  }

  lemma SymbolsOne(a: seq<string>)
    requires |a| <= 1
    ensures Symbols(a) == if a == [] then "" else Symbol(a[0])
  {
    if |a| == 1 {
      assert a[..0] == [];
      assert ConcatMap(Symbol, a) == ConcatMap(Symbol, a[..0]) + Symbol(a[0]);
    }
  }

  /** The modifiers of a recorded shortcut are shown as ⌘ ⌃ ⌥ ⇧ in that order. */
  lemma ModSymbols(ev: KeyEvent)
    ensures Symbols(ModTexts(ev)) ==
      (if ev.meta then "⌘" else "") + (if ev.ctrl then "⌃" else "")
      + (if ev.alt then "⌥" else "") + (if ev.shift then "⇧" else "")
  {
    ModifierNames();
    var a := OptSymbol(ev.meta, "Cmd", "⌘");
    var b := OptSymbol(ev.ctrl, "Ctrl", "⌃");
    var c := OptSymbol(ev.alt, "Alt", "⌥");
    var d := OptSymbol(ev.shift, "Shift", "⇧");
    assert ModTexts(ev) == a + b + c + d;
    ConcatMapAppend(Symbol, a + b + c, d);
    ConcatMapAppend(Symbol, a + b, c);
    ConcatMapAppend(Symbol, a, b);
  }

  /** The name of one modifier when its flag is set, and how it is shown. */
  lemma OptSymbol(flag: bool, name: string, sym: string) returns (a: seq<string>)
    requires Symbol(name) == sym
    ensures a == (if flag then [name] else [])
    ensures Symbols(a) == (if flag then sym else "")
  {
    a := if flag then [name] else [];
    SymbolsOne(a);
  }

  // ---------------------------------------------------------------------
  // The settings dialog
  // ---------------------------------------------------------------------

  /** What the dialog's Save hands over, each empty field replaced by its default. */
  datatype Choice = Choice(searchShortcut: string, closeEditorShortcut: string, theme: string)

  function OrDefault(s: string, d: string): string {
    if s == "" then d else s
  }

  function SaveChoice(value: string, closeValue: string, themeValue: string): (c: Choice)
    ensures c.searchShortcut != "" && c.closeEditorShortcut != "" && c.theme != ""
  {
    Choice(OrDefault(value, "Cmd+G"), OrDefault(closeValue, "Cmd+W"), OrDefault(themeValue, "zinc"))
  }

  /** Save keeps what was entered and substitutes Cmd+G, Cmd+W and zinc only for empty values. */
  lemma SaveChoiceDefaults(value: string, closeValue: string, themeValue: string)
    ensures value != "" ==> SaveChoice(value, closeValue, themeValue).searchShortcut == value
    ensures value == "" ==> SaveChoice(value, closeValue, themeValue).searchShortcut == "Cmd+G"
    ensures closeValue != "" ==> SaveChoice(value, closeValue, themeValue).closeEditorShortcut == closeValue
    ensures closeValue == "" ==> SaveChoice(value, closeValue, themeValue).closeEditorShortcut == "Cmd+W"
    ensures themeValue == "" ==> SaveChoice(value, closeValue, themeValue).theme == "zinc"
  {
  }

  /**
   * The settings dialog's state: the two shortcut fields, whether each is
   * recording a key press, and the chosen theme.
   */
  class SettingsForm {
    var value: string
    var closeValue: string
    var recording: bool
    var recordingClose: bool
    var themeValue: string

    constructor (searchShortcut: string, theme: string)
      ensures value == OrDefault(searchShortcut, "Cmd+G") && closeValue == "Cmd+W"
      ensures !recording && !recordingClose && themeValue == OrDefault(theme, "zinc")
    {
      value := OrDefault(searchShortcut, "Cmd+G");
      closeValue := "Cmd+W";
      recording := false;
      recordingClose := false;
      themeValue := OrDefault(theme, "zinc");
    }

    /** Opening the dialog reloads the fields from the store and stops any recording. */
    method Open(searchShortcut: string, closeEditorShortcut: string, theme: string)
      modifies this
      ensures value == OrDefault(searchShortcut, "Cmd+G") && closeValue == OrDefault(closeEditorShortcut, "Cmd+W")
      ensures !recording && !recordingClose && themeValue == OrDefault(theme, "zinc")
    {
      value := OrDefault(searchShortcut, "Cmd+G");
      closeValue := OrDefault(closeEditorShortcut, "Cmd+W");
      recording := false;
      recordingClose := false;
      themeValue := OrDefault(theme, "zinc");
    }

    /** Focusing or clicking the search field starts recording it. */
    method StartRecording()
      modifies this
      ensures recording && recordingClose == old(recordingClose)
      ensures value == old(value) && closeValue == old(closeValue) && themeValue == old(themeValue)
    {
      recording := true;
    }

    method StartRecordingClose()
      modifies this
      ensures recordingClose && recording == old(recording)
      ensures value == old(value) && closeValue == old(closeValue) && themeValue == old(themeValue)
    {
      recordingClose := true;
    }

    /**
     * A key press while the dialog is open: each field that is recording
     * takes the built shortcut and stops recording; a press that builds no
     * shortcut (a lone modifier) leaves it recording.
     */
    method KeyDown(ev: KeyEvent)
      modifies this
      ensures old(recording) && BuildShortcut(ev).Some? ==> value == BuildShortcut(ev).value && !recording
      ensures !(old(recording) && BuildShortcut(ev).Some?) ==> value == old(value) && recording == old(recording)
      ensures old(recordingClose) && BuildShortcut(ev).Some? ==> closeValue == BuildShortcut(ev).value && !recordingClose
      ensures !(old(recordingClose) && BuildShortcut(ev).Some?) ==> closeValue == old(closeValue) && recordingClose == old(recordingClose)
      ensures themeValue == old(themeValue)
    {
      var next := BuildShortcut(ev);
      if recording && next.Some? {
        value := next.value;
        recording := false;
      }
      if recordingClose && next.Some? {
        closeValue := next.value;
        recordingClose := false;
      }
    }

    method ChooseTheme(t: string)
      modifies this
      ensures themeValue == t && value == old(value) && closeValue == old(closeValue)
      ensures recording == old(recording) && recordingClose == old(recordingClose)
    {
      themeValue := t;
    }

  }
}
