/**
 * `ExternalEditorSettings`: the application the "Open in …" command hands the document to,
 * and the keyboard shortcut of that command, kept in the user defaults. The defaults are a
 * map from key to stored value; an editor is identified by the path of its file URL.
 */
module EditorSettings {
  import opened Wrappers
  import opened Text
  import Paths

  // ---------------------------------------------------------------------------------
  // Modifier flags

  /** Raw values of `NSEvent.ModifierFlags`: one bit each. */
  const ShiftFlag: nat := 0x2_0000
  const ControlFlag: nat := 0x4_0000
  const OptionFlag: nat := 0x8_0000
  const CommandFlag: nat := 0x10_0000

  /** `ModifierFlags(rawValue: modifiers).contains(flag)` for a one-bit flag. */
  predicate HasFlag(modifiers: nat, flag: nat)
    requires flag > 0
  {
    (modifiers / flag) % 2 == 1
  }

  // ---------------------------------------------------------------------------------
  // The stored values

  datatype Settings = Settings(
    editorAppURL: Option<string>,
    editorDisplayName: string,
    shortcutKey: string,
    shortcutModifiers: nat)

  function DefaultDisplayName(): string { "External Editor" }

  /** What a fresh instance holds before it loads: no editor, and Command-E. */
  function Initial(): Settings {
    Settings(None, DefaultDisplayName(), "e", CommandFlag)
  }

  // ---------------------------------------------------------------------------------
  // Derived values

  /** `menuItemTitle`. */
  function MenuItemTitle(s: Settings): string {
    if s.editorAppURL.Some? then "Open in " + s.editorDisplayName else "Open in External Editor"
  }

  /** The menu names no particular editor exactly when none is set or it is called that. */
  lemma MenuItemTitleGeneric(s: Settings)
    ensures MenuItemTitle(s) == "Open in " + DefaultDisplayName()
            <==> s.editorAppURL.None? || s.editorDisplayName == DefaultDisplayName()
  {
    var lead := "Open in ";
    if s.editorAppURL.Some? && MenuItemTitle(s) == lead + DefaultDisplayName() {
      assert (lead + s.editorDisplayName)[|lead|..] == s.editorDisplayName;
      assert (lead + DefaultDisplayName())[|lead|..] == DefaultDisplayName();
    }
  }

  /** `displayName(for:)`: the last path component without its extension, if any is left. */
  function DisplayName(path: string): (r: string)
    ensures r != []
  {
    var name := Paths.DeletingPathExtension(Paths.LastPathComponent(path));
    if name == [] then DefaultDisplayName() else name
  }

  /** An application `dir/name.app` (or a tool `dir/name`) is shown as `name`. */
  lemma DisplayNameOfApp(dir: string, name: string, suffix: string)
    requires name != [] && '/' !in name && '.' !in name && Paths.Extension(suffix)
    ensures DisplayName(dir + "/" + name + suffix) == name
  {
    Paths.NameOfPath(dir, name, suffix);
  }

  /** Only the empty path falls back to the generic name; the root is shown as itself. */
  lemma DisplayNameFallback(path: string)
    ensures path == [] ==> DisplayName(path) == DefaultDisplayName()
    ensures path != [] ==> DisplayName(path) == Paths.DeletingPathExtension(Paths.LastPathComponent(path))
    ensures DisplayName("/") == "/"
  {
    assert Paths.TrimTrailingSlashes("/") == [];
  }

  /** `shortcutIdentity`: the key and the raw modifier value, joined by a hyphen. */
  function ShortcutIdentity(s: Settings): string {
    s.shortcutKey + "-" + Decimal(s.shortcutModifiers)
  }

  /** The identity changes whenever the key or the modifiers change, and only then. */
  lemma ShortcutIdentityDistinguishes(s: Settings, t: Settings)
    ensures ShortcutIdentity(s) == ShortcutIdentity(t)
            <==> s.shortcutKey == t.shortcutKey && s.shortcutModifiers == t.shortcutModifiers
  {
    if ShortcutIdentity(s) == ShortcutIdentity(t) {
      var ds, dt := Decimal(s.shortcutModifiers), Decimal(t.shortcutModifiers);
      var x := ShortcutIdentity(s);
      assert x == s.shortcutKey + ['-'] + ds;
      assert x == t.shortcutKey + ['-'] + dt;
      Paths.LastIndexAfter(s.shortcutKey, '-', ds);
      Paths.LastIndexAfter(t.shortcutKey, '-', dt);
      assert s.shortcutKey == x[..|s.shortcutKey|];
      assert t.shortcutKey == x[..|t.shortcutKey|];
      assert ds == x[|s.shortcutKey| + 1..];
      assert dt == x[|t.shortcutKey| + 1..];
      ParseSignedDecimal(s.shortcutModifiers);
      ParseSignedDecimal(t.shortcutModifiers);
    }
  }

  /** A cleared shortcut is identified as `-0`. */
  lemma ClearedShortcutIdentity(s: Settings)
    requires s.shortcutKey == [] && s.shortcutModifiers == 0
    ensures ShortcutIdentity(s) == "-0"
  {
    assert Decimal(0) == ['0'];
  }

  /** SwiftUI's `EventModifiers`. */
  datatype EventModifier = CommandKey | ShiftKey | OptionKey | ControlKey

  datatype KeyboardShortcut = KeyboardShortcut(key: char, modifiers: set<EventModifier>)

  function EventModifiers(modifiers: nat): set<EventModifier> {
    (if HasFlag(modifiers, CommandFlag) then {CommandKey} else {})
    + (if HasFlag(modifiers, ShiftFlag) then {ShiftKey} else {})
    + (if HasFlag(modifiers, OptionFlag) then {OptionKey} else {})
    + (if HasFlag(modifiers, ControlFlag) then {ControlKey} else {})
  }

  /** `keyboardShortcut`: none without a key; else the lowercased first character. */
  function KeyboardShortcutOf(s: Settings): (r: Option<KeyboardShortcut>)
    ensures r.None? <==> s.shortcutKey == []
    ensures r.Some? ==> r.value.key == LowerChar(s.shortcutKey[0])
  {
    var lower := Lowercased(s.shortcutKey);
    if lower == [] then None else Some(KeyboardShortcut(lower[0], EventModifiers(s.shortcutModifiers)))
  }

  /** Each modifier of the shortcut is there exactly when its flag is set. */
  lemma ShortcutModifiers(modifiers: nat)
    ensures CommandKey in EventModifiers(modifiers) <==> HasFlag(modifiers, CommandFlag)
    ensures ShiftKey in EventModifiers(modifiers) <==> HasFlag(modifiers, ShiftFlag)
    ensures OptionKey in EventModifiers(modifiers) <==> HasFlag(modifiers, OptionFlag)
    ensures ControlKey in EventModifiers(modifiers) <==> HasFlag(modifiers, ControlFlag)
  {
  }

  const ControlGlyph: char := '\U{2303}'
  const OptionGlyph: char := '\U{2325}'
  const ShiftGlyph: char := '\U{21E7}'
  const CommandGlyph: char := '\U{2318}'

  /** The glyphs of the set modifiers, in the order control, option, shift, command. */
  function ModifierGlyphs(modifiers: nat): string {
    GlyphsOf(HasFlag(modifiers, ControlFlag), HasFlag(modifiers, OptionFlag),
             HasFlag(modifiers, ShiftFlag), HasFlag(modifiers, CommandFlag))
  }

  function GlyphsOf(control: bool, option: bool, shift: bool, command: bool): string {
    (if control then [ControlGlyph] else [])
    + (if option then [OptionGlyph] else [])
    + (if shift then [ShiftGlyph] else [])
    + (if command then [CommandGlyph] else [])
  }

  /** `shortcutDisplayString`: the modifier glyphs, then the key in upper case. */
  function ShortcutDisplayString(s: Settings): string {
    ModifierGlyphs(s.shortcutModifiers) + Uppercased(s.shortcutKey)
  }

  /** The place of a glyph in the fixed order; 4 for anything else. */
  function GlyphRank(c: char): nat {
    if c == ControlGlyph then 0
    else if c == OptionGlyph then 1
    else if c == ShiftGlyph then 2
    else if c == CommandGlyph then 3
    else 4
  }

  /** Each glyph appears exactly when its modifier is set, and they come in the fixed order. */
  lemma GlyphsOrdered(modifiers: nat)
    ensures ControlGlyph in ModifierGlyphs(modifiers) <==> HasFlag(modifiers, ControlFlag)
    ensures OptionGlyph in ModifierGlyphs(modifiers) <==> HasFlag(modifiers, OptionFlag)
    ensures ShiftGlyph in ModifierGlyphs(modifiers) <==> HasFlag(modifiers, ShiftFlag)
    ensures CommandGlyph in ModifierGlyphs(modifiers) <==> HasFlag(modifiers, CommandFlag)
    ensures forall i, j | 0 <= i < j < |ModifierGlyphs(modifiers)| ::
              GlyphRank(ModifierGlyphs(modifiers)[i]) < GlyphRank(ModifierGlyphs(modifiers)[j]) < 4
  {
    var control, option := HasFlag(modifiers, ControlFlag), HasFlag(modifiers, OptionFlag);
    var shift, command := HasFlag(modifiers, ShiftFlag), HasFlag(modifiers, CommandFlag);
    GlyphsOfMembers(control, option, shift, command);
    GlyphsOfRanks(control, option, shift, command);
  }

  lemma GlyphsOfMembers(control: bool, option: bool, shift: bool, command: bool)
    ensures var g := GlyphsOf(control, option, shift, command);
      && (ControlGlyph in g <==> control) && (OptionGlyph in g <==> option)
      && (ShiftGlyph in g <==> shift) && (CommandGlyph in g <==> command)
  {
  }

  lemma GlyphsOfRanks(control: bool, option: bool, shift: bool, command: bool)
    ensures var g := GlyphsOf(control, option, shift, command);
      forall i, j | 0 <= i < j < |g| :: GlyphRank(g[i]) < GlyphRank(g[j]) < 4
  {
  }

  /** The display string is the glyphs followed by the whole key, upper-cased. */
  lemma DisplayStringEndsWithKey(s: Settings)
    ensures var r := ShortcutDisplayString(s);
      && |r| == |ModifierGlyphs(s.shortcutModifiers)| + |s.shortcutKey|
      && r[|r| - |s.shortcutKey|..] == Uppercased(s.shortcutKey)
  {
  }

  /** Command-Shift-O is shown as "⇧⌘O", and a plain F as "F". */
  lemma DisplayStringExamples()
    ensures ShortcutDisplayString(Settings(None, DefaultDisplayName(), "o", CommandFlag + ShiftFlag))
            == [ShiftGlyph, CommandGlyph, 'O']
    ensures ShortcutDisplayString(Settings(None, DefaultDisplayName(), "f", 0)) == ['F']
  {
  }

  // ---------------------------------------------------------------------------------
  // The defaults store

  datatype Value = StringValue(text: string) | IntegerValue(number: int)

  type Defaults = map<string, Value>

  function EditorAppURLKey(): string { "externalEditorAppURL" }
  function EditorDisplayNameKey(): string { "externalEditorDisplayName" }
  function ShortcutKeyKey(): string { "externalEditorShortcutKey" }
  function ShortcutModifiersKey(): string { "externalEditorShortcutModifiers" }

  lemma KeysDistinct()
    ensures EditorAppURLKey() != EditorDisplayNameKey() && EditorAppURLKey() != ShortcutKeyKey()
    ensures EditorAppURLKey() != ShortcutModifiersKey() && EditorDisplayNameKey() != ShortcutKeyKey()
    ensures EditorDisplayNameKey() != ShortcutModifiersKey() && ShortcutKeyKey() != ShortcutModifiersKey()
  {
    assert EditorDisplayNameKey()[14] != ShortcutKeyKey()[14];
  }

  /** `string(forKey:)`. */
  function StringFor(d: Defaults, key: string): Option<string> {
    if key in d && d[key].StringValue? then Some(d[key].text) else None
  }

  /** `integer(forKey:)`: zero when nothing numeric is stored. */
  function IntegerFor(d: Defaults, key: string): int {
    if key in d && d[key].IntegerValue? then d[key].number else 0
  }

  /** Converting the stored modifiers to `UInt` traps on a negative number. */
  predicate LoadableModifiers(d: Defaults) {
    ShortcutModifiersKey() in d ==> IntegerFor(d, ShortcutModifiersKey()) >= 0
  }

  /** `save()`: the four values under their keys; without an editor the URL key is removed. */
  function Saved(d: Defaults, s: Settings): Defaults {
    var withURL :=
      match s.editorAppURL
      case Some(path) => d[EditorAppURLKey() := StringValue(path)]
      case None => d - {EditorAppURLKey()};
    withURL[EditorDisplayNameKey() := StringValue(s.editorDisplayName)]
           [ShortcutKeyKey() := StringValue(s.shortcutKey)]
           [ShortcutModifiersKey() := IntegerValue(s.shortcutModifiers)]
  }

  /**
   * `load()`: each stored value replaces the current one; an empty stored key does not, and
   * stored modifiers count whenever the key is present.
   */
  function Loaded(d: Defaults, s: Settings): Settings
    requires LoadableModifiers(d)
  {
    Settings(
      (match StringFor(d, EditorAppURLKey()) case Some(path) => Some(path) case None => s.editorAppURL),
      StringFor(d, EditorDisplayNameKey()).GetOr(s.editorDisplayName),
      (match StringFor(d, ShortcutKeyKey())
       case Some(key) => if key != [] then key else s.shortcutKey
       case None => s.shortcutKey),
      if ShortcutModifiersKey() in d then IntegerFor(d, ShortcutModifiersKey()) else s.shortcutModifiers)
  }

  /** Saving leaves every other key of the defaults alone. */
  lemma SavedKeepsOthers(d: Defaults, s: Settings, key: string)
    requires key != EditorAppURLKey() && key != EditorDisplayNameKey()
    requires key != ShortcutKeyKey() && key != ShortcutModifiersKey()
    ensures key in Saved(d, s) <==> key in d
    ensures key in d ==> Saved(d, s)[key] == d[key]
  {
  }

  /**
   * A fresh instance reads back what was saved, except that a cleared key comes back as the
   * default "e" while the cleared modifiers stay 0.
   */
  lemma LoadSaved(d: Defaults, s: Settings)
    ensures LoadableModifiers(Saved(d, s))
    ensures Loaded(Saved(d, s), Initial()) == if s.shortcutKey == [] then s.(shortcutKey := "e") else s
  {
    KeysDistinct();
  }

  // ---------------------------------------------------------------------------------
  // The settings object

  class ExternalEditorSettings {
    var editorAppURL: Option<string>
    var editorDisplayName: string
    var shortcutKey: string
    var shortcutModifiers: nat
    var isLoading: bool
    var isBatching: bool
    var defaults: Defaults
    /** How many times `save` has written the defaults. */
    ghost var saves: nat

    function Current(): Settings
      reads this
    {
      Settings(editorAppURL, editorDisplayName, shortcutKey, shortcutModifiers)
    }

    /** Between calls the instance is neither loading nor batching. */
    predicate Idle()
      reads this
    {
      !isLoading && !isBatching
    }

    /** `init()`: the defaults of a fresh instance, then `load()`, which writes nothing. */
    constructor (store: Defaults)
      requires LoadableModifiers(store)
      ensures Idle() && defaults == store && saves == 0
      ensures Current() == Loaded(store, Initial())
    {
      editorAppURL := None;
      editorDisplayName := DefaultDisplayName();
      shortcutKey := "e";
      shortcutModifiers := CommandFlag;
      isLoading := false;
      isBatching := false;
      defaults := store;
      saves := 0;
      new;
      Load();
    }

    /** `save()`: nothing while loading. */
    method Save()
      modifies this
      ensures Current() == old(Current())
      ensures isLoading == old(isLoading) && isBatching == old(isBatching)
      ensures if isLoading then defaults == old(defaults) && saves == old(saves)
              else defaults == Saved(old(defaults), Current()) && saves == old(saves) + 1
    {
      if isLoading {
        return;
      }
      match editorAppURL {
        case Some(path) => defaults := defaults[EditorAppURLKey() := StringValue(path)];
        case None => defaults := defaults - {EditorAppURLKey()};
      }
      defaults := defaults[EditorDisplayNameKey() := StringValue(editorDisplayName)];
      defaults := defaults[ShortcutKeyKey() := StringValue(shortcutKey)];
      defaults := defaults[ShortcutModifiersKey() := IntegerValue(shortcutModifiers)];
      saves := saves + 1;
    }

    /** The `didSet` observer of every stored property: save unless loading or batching. */
    method DidSet()
      modifies this
      ensures Current() == old(Current())
      ensures isLoading == old(isLoading) && isBatching == old(isBatching)
      ensures if isLoading || isBatching then defaults == old(defaults) && saves == old(saves)
              else defaults == Saved(old(defaults), Current()) && saves == old(saves) + 1
    {
      if !isLoading && !isBatching {
        Save();
      }
    }

    method SetEditorAppURL(url: Option<string>)
      modifies this
      ensures Current() == old(Current()).(editorAppURL := url)
      ensures isLoading == old(isLoading) && isBatching == old(isBatching)
      ensures if isLoading || isBatching then defaults == old(defaults) && saves == old(saves)
              else defaults == Saved(old(defaults), Current()) && saves == old(saves) + 1
    {
      editorAppURL := url;
      DidSet();
    }

    method SetEditorDisplayName(name: string)
      modifies this
      ensures Current() == old(Current()).(editorDisplayName := name)
      ensures isLoading == old(isLoading) && isBatching == old(isBatching)
      ensures if isLoading || isBatching then defaults == old(defaults) && saves == old(saves)
              else defaults == Saved(old(defaults), Current()) && saves == old(saves) + 1
    {
      editorDisplayName := name;
      DidSet();
    }

    method SetShortcutKey(key: string)
      modifies this
      ensures Current() == old(Current()).(shortcutKey := key)
      ensures isLoading == old(isLoading) && isBatching == old(isBatching)
      ensures if isLoading || isBatching then defaults == old(defaults) && saves == old(saves)
              else defaults == Saved(old(defaults), Current()) && saves == old(saves) + 1
    {
      shortcutKey := key;
      DidSet();
    }

    method SetShortcutModifiers(modifiers: nat)
      modifies this
      ensures Current() == old(Current()).(shortcutModifiers := modifiers)
      ensures isLoading == old(isLoading) && isBatching == old(isBatching)
      ensures if isLoading || isBatching then defaults == old(defaults) && saves == old(saves)
              else defaults == Saved(old(defaults), Current()) && saves == old(saves) + 1
    {
      shortcutModifiers := modifiers;
      DidSet();
    }

    /** `setEditor(url:)`: both fields change, then a single save. */
    method SetEditor(path: string)
      requires Idle()
      modifies this
      ensures Idle()
      ensures Current() == old(Current()).(editorAppURL := Some(path), editorDisplayName := DisplayName(path))
      ensures defaults == Saved(old(defaults), Current()) && saves == old(saves) + 1
    {
      isBatching := true;
      SetEditorAppURL(Some(path));
      SetEditorDisplayName(DisplayName(path));
      isBatching := false;
      Save();
    }

    /** `clearEditor()`: no editor and the generic name, then a single save. */
    method ClearEditor()
      requires Idle()
      modifies this
      ensures Idle()
      ensures Current() == old(Current()).(editorAppURL := None, editorDisplayName := DefaultDisplayName())
      ensures defaults == Saved(old(defaults), Current()) && saves == old(saves) + 1
    {
      isBatching := true;
      SetEditorAppURL(None);
      SetEditorDisplayName(DefaultDisplayName());
      isBatching := false;
      Save();
    }

    /** `setShortcut(key:modifiers:)`: the key lowercased and the raw modifiers, then one save. */
    method SetShortcut(key: string, modifiers: nat)
      requires Idle()
      modifies this
      ensures Idle()
      ensures Current() == old(Current()).(shortcutKey := Lowercased(key), shortcutModifiers := modifiers)
      ensures defaults == Saved(old(defaults), Current()) && saves == old(saves) + 1
    {
      isBatching := true;
      SetShortcutKey(Lowercased(key));
      SetShortcutModifiers(modifiers);
      isBatching := false;
      Save();
    }

    /** `clearShortcut()`: no key and no modifiers, then one save. */
    method ClearShortcut()
      requires Idle()
      modifies this
      ensures Idle()
      ensures Current() == old(Current()).(shortcutKey := "", shortcutModifiers := 0)
      ensures defaults == Saved(old(defaults), Current()) && saves == old(saves) + 1
    {
      isBatching := true;
      SetShortcutKey("");
      SetShortcutModifiers(0);
      isBatching := false;
      Save();
    }

    /** `load()`: the stored values replace the current ones, and nothing is saved meanwhile. */
    method Load()
      requires Idle() && LoadableModifiers(defaults)
      modifies this
      ensures Idle() && defaults == old(defaults) && saves == old(saves)
      ensures Current() == Loaded(defaults, old(Current()))
    {
      isLoading := true;
      var path := StringFor(defaults, EditorAppURLKey());
      if path.Some? {
        SetEditorAppURL(Some(path.value));
      }
      var name := StringFor(defaults, EditorDisplayNameKey());
      if name.Some? {
        SetEditorDisplayName(name.value);
      }
      var key := StringFor(defaults, ShortcutKeyKey());
      if key.Some? && key.value != [] {
        SetShortcutKey(key.value);
      }
      if ShortcutModifiersKey() in defaults {
        SetShortcutModifiers(IntegerFor(defaults, ShortcutModifiersKey()));
      }
      isLoading := false;
    }
  }
}
