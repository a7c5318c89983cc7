/**
 * `AppearanceSettings`: the app's light/dark choice, which the toolbar button cycles through,
 * persisted as an integer under `appearanceMode` in the user defaults.
 */
module Appearance {
  import opened Wrappers

  datatype AppearanceMode = System | Light | Dark

  /** `rawValue`. */
  function RawValue(mode: AppearanceMode): int {
    match mode
    case System => 0
    case Light => 1
    case Dark => 2
  }

  /** `AppearanceMode(rawValue:)`: none for any other number. */
  function ModeOf(raw: int): (r: Option<AppearanceMode>)
    ensures r.Some? <==> 0 <= raw <= 2
    ensures r.Some? ==> RawValue(r.value) == raw
  {
    if raw == 0 then Some(System)
    else if raw == 1 then Some(Light)
    else if raw == 2 then Some(Dark)
    else None
  }

  /** Every mode reads back from its raw value. */
  lemma RawValueRoundTrip(mode: AppearanceMode)
    ensures ModeOf(RawValue(mode)) == Some(mode)
  {
  }

  /** The mode `init` starts in: the stored one, and the system mode for an unknown number. */
  function InitialMode(raw: int): (mode: AppearanceMode)
    ensures 0 <= raw <= 2 ==> RawValue(mode) == raw
    ensures !(0 <= raw <= 2) ==> mode == System
  {
    ModeOf(raw).GetOr(System)
  }

  /** The mode `cycle()` moves to. */
  function Next(mode: AppearanceMode): AppearanceMode {
    match mode
    case System => Light
    case Light => Dark
    case Dark => System
  }

  /** Cycling visits all three modes and is back after three steps. */
  lemma CycleOrder(mode: AppearanceMode)
    ensures Next(mode) != mode && Next(Next(mode)) != mode && Next(Next(mode)) != Next(mode)
    ensures Next(Next(Next(mode))) == mode
  {
  }

  function IconName(mode: AppearanceMode): string {
    match mode
    case System => "circle.lefthalf.filled"
    case Light => "sun.max.fill"
    case Dark => "moon.fill"
  }

  function Label(mode: AppearanceMode): string {
    match mode
    case System => "Appearance: System"
    case Light => "Appearance: Light"
    case Dark => "Appearance: Dark"
  }

  /** Different modes show different icons and labels. */
  lemma PresentationDistinct(a: AppearanceMode, b: AppearanceMode)
    ensures IconName(a) == IconName(b) <==> a == b
    ensures Label(a) == Label(b) <==> a == b
  {
    if a != b {
      assert |Label(System)| == 18 && |Label(Light)| == 17 && |Label(Dark)| == 16;
      assert |IconName(System)| == 22 && |IconName(Light)| == 12 && |IconName(Dark)| == 9;
    }
  }

  /** `NSAppearance` names the app can be given. */
  datatype NamedAppearance = Aqua | DarkAqua

  /** What `applyAppearance()` gives the application: none follows the system. */
  function AppAppearance(mode: AppearanceMode): (r: Option<NamedAppearance>)
    ensures r.None? <==> mode == System
  {
    match mode
    case System => None
    case Light => Some(Aqua)
    case Dark => Some(DarkAqua)
  }

  function ModeKey(): string { "appearanceMode" }

  /** `integer(forKey:)`: zero when nothing is stored. */
  function IntegerFor(defaults: map<string, int>, key: string): int {
    if key in defaults then defaults[key] else 0
  }

  /** The mode persisted by a change is the mode a later launch starts in. */
  lemma PersistedModeRestores(defaults: map<string, int>, mode: AppearanceMode)
    ensures InitialMode(IntegerFor(defaults[ModeKey() := RawValue(mode)], ModeKey())) == mode
  {
    RawValueRoundTrip(mode);
  }

  class AppearanceSettings {
    var mode: AppearanceMode
    var isLoading: bool
    var defaults: map<string, int>
    /** The appearance of the running application. */
    var appearance: Option<NamedAppearance>
    /** Whether `NSApp` exists yet. */
    const hasApp: bool

    /**
     * `init()`: the stored mode, with neither a write to the defaults nor a change of the
     * application's appearance.
     */
    constructor (store: map<string, int>, appearance: Option<NamedAppearance>, hasApp: bool)
      ensures mode == InitialMode(IntegerFor(store, ModeKey()))
      ensures defaults == store && this.appearance == appearance && this.hasApp == hasApp
      ensures !isLoading
    {
      this.hasApp := hasApp;
      this.appearance := appearance;
      defaults := store;
      mode := System;
      isLoading := true;
      new;
      var raw := IntegerFor(defaults, ModeKey());
      SetMode(ModeOf(raw).GetOr(System));
      isLoading := false;
    }

    /** `applyAppearance()`: nothing without an application. */
    method ApplyAppearance()
      modifies this
      ensures mode == old(mode) && isLoading == old(isLoading) && defaults == old(defaults)
      ensures appearance == if hasApp then AppAppearance(mode) else old(appearance)
    {
      if !hasApp {
        return;
      }
      match mode {
        case System => appearance := None;
        case Light => appearance := Some(Aqua);
        case Dark => appearance := Some(DarkAqua);
      }
    }

    /** Assigning `mode`: unless loading, its observer persists the raw value and applies it. */
    method SetMode(newMode: AppearanceMode)
      modifies this
      ensures mode == newMode && isLoading == old(isLoading)
      ensures old(isLoading) ==> defaults == old(defaults) && appearance == old(appearance)
      ensures !old(isLoading) ==> defaults == old(defaults)[ModeKey() := RawValue(newMode)]
      ensures !old(isLoading) ==> appearance == if hasApp then AppAppearance(newMode) else old(appearance)
    {
      mode := newMode;
      if isLoading {
        return;
      }
      defaults := defaults[ModeKey() := RawValue(mode)];
      ApplyAppearance();
    }

    /** `cycle()`: system, light, dark, and round again; the new mode is persisted. */
    method Cycle()
      requires !isLoading
      modifies this
      ensures mode == Next(old(mode)) && !isLoading
      ensures defaults == old(defaults)[ModeKey() := RawValue(mode)]
      ensures appearance == if hasApp then AppAppearance(mode) else old(appearance)
    {
      match mode {
        case System => SetMode(Light);
        case Light => SetMode(Dark);
        case Dark => SetMode(System);
      }
    }
  }
}
