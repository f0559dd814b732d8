/**
 * The settings screen (app/dashboard/settings/settings-content.tsx): eleven
 * preferences kept in one browser-storage entry, loaded over the defaults
 * on mount, changed through the screen's buttons, toggles and slider, saved
 * as a whole, reset to the defaults, and the "dark" class on the document
 * root that the theme preference drives.
 */
module Settings {
  import opened Basics

  // ---------------------------------------------------------------------------
  // The preferences
  // ---------------------------------------------------------------------------

  /** The eleven preferences, as the screen holds them. */
  datatype Prefs = Prefs(
    theme: string,
    codeFont: string,
    codeFontSize: int,
    defaultTaskType: string,
    defaultPriority: string,
    notifications: bool,
    emailDigest: bool,
    compactMode: bool,
    showLineNumbers: bool,
    syntaxHighlighting: bool,
    sidebarPosition: string)

  /** `DEFAULT_SETTINGS`. */
  const Defaults := Prefs("light", "jetbrains-mono", 14, "TODO", "medium", true, false, false, true, true, "left")

  /** The values each choice offers. */
  const Themes: seq<string> := ["light", "dark", "auto"]
  const CodeFonts: seq<string> := ["jetbrains-mono", "fira-code", "source-code-pro", "cascadia-code"]
  const TaskTypes: seq<string> := ["TODO", "FIXME", "BUG", "ALERT", "HACK", "NOTE", "OPTIMIZE", "SECURITY", "DEPRECATED", "REVIEW"]
  const Priorities: seq<string> := ["low", "medium", "high", "critical"]
  const SidebarPositions: seq<string> := ["left", "collapsible"]

  const MinFontSize := 10
  const MaxFontSize := 20

  /** Every preference holds a value the screen offers. */
  predicate Offered(p: Prefs) {
    && p.theme in Themes
    && p.codeFont in CodeFonts
    && MinFontSize <= p.codeFontSize <= MaxFontSize
    && p.defaultTaskType in TaskTypes
    && p.defaultPriority in Priorities
    && p.sidebarPosition in SidebarPositions
  }

  // ---------------------------------------------------------------------------
  // The stored entry
  // ---------------------------------------------------------------------------

  /**
   * The fields of the parsed entry. A field that is absent and one that is
   * `null` are both `None`.
   */
  datatype StoredPrefs = StoredPrefs(
    theme: Option<string>,
    codeFont: Option<string>,
    codeFontSize: Option<int>,
    defaultTaskType: Option<string>,
    defaultPriority: Option<string>,
    notifications: Option<bool>,
    emailDigest: Option<bool>,
    compactMode: Option<bool>,
    showLineNumbers: Option<bool>,
    syntaxHighlighting: Option<bool>,
    sidebarPosition: Option<string>)

  /**
   * The storage entry: missing (or the empty string, which the load treats
   * alike), text that does not parse as an object, or a parsed object.
   */
  datatype Stored = NoEntry | Unparseable | Entry(fields: StoredPrefs)

  /** JavaScript's `v || d` on a string field: the empty string and a missing value both fall back. */
  function OrString(v: Option<string>, d: string): (r: string)
    ensures r == d <==> v.None? || v.value == "" || v.value == d
    ensures r != d ==> v == Some(r)
  {
    if v.Some? && v.value != "" then v.value else d
  }

  /** JavaScript's `v || d` on a number field: 0 and a missing value both fall back. */
  function OrNumber(v: Option<int>, d: int): (r: int)
    ensures r == d <==> v.None? || v.value == 0 || v.value == d
    ensures r != d ==> v == Some(r)
  {
    if v.Some? && v.value != 0 then v.value else d
  }

  /** JavaScript's `v ?? d`: only a missing value falls back; `false` is kept. */
  function Coalesce(v: Option<bool>, d: bool): (r: bool)
    ensures v.Some? ==> r == v.value
    ensures v.None? ==> r == d
  {
    match v
    case Some(b) => b
    case None => d
  }

  /**
   * The load on mount: the defaults, unless the entry parses, in which case
   * each string and the size fall back to the default when missing or
   * falsy, and each switch only when missing. A stored value outside the
   * offered ones is taken as it is.
   */
  function Load(stored: Stored): (p: Prefs)
    ensures !stored.Entry? ==> p == Defaults
    ensures stored.Entry? ==>
      var f := stored.fields;
      && (f.theme.Some? && f.theme.value != "" ==> p.theme == f.theme.value)
      && (f.codeFontSize.Some? && f.codeFontSize.value != 0 ==> p.codeFontSize == f.codeFontSize.value)
      && (f.notifications.Some? ==> p.notifications == f.notifications.value)
      && (f.theme.None? || f.theme.value == "" ==> p.theme == Defaults.theme)
      && (f.codeFontSize.None? || f.codeFontSize.value == 0 ==> p.codeFontSize == Defaults.codeFontSize)
      && (f.notifications.None? ==> p.notifications == Defaults.notifications)
  ensures stored.Entry? ==>
      var f := stored.fields;
      && p.codeFont == OrString(f.codeFont, Defaults.codeFont)
      && p.defaultTaskType == OrString(f.defaultTaskType, Defaults.defaultTaskType)
      && p.defaultPriority == OrString(f.defaultPriority, Defaults.defaultPriority)
      && p.sidebarPosition == OrString(f.sidebarPosition, Defaults.sidebarPosition)
      && p.emailDigest == Coalesce(f.emailDigest, Defaults.emailDigest)
      && p.compactMode == Coalesce(f.compactMode, Defaults.compactMode)
      && p.showLineNumbers == Coalesce(f.showLineNumbers, Defaults.showLineNumbers)
      && p.syntaxHighlighting == Coalesce(f.syntaxHighlighting, Defaults.syntaxHighlighting)
  {
    match stored
    case Entry(f) =>
      Prefs(
        OrString(f.theme, Defaults.theme),
        OrString(f.codeFont, Defaults.codeFont),
        OrNumber(f.codeFontSize, Defaults.codeFontSize),
        OrString(f.defaultTaskType, Defaults.defaultTaskType),
        OrString(f.defaultPriority, Defaults.defaultPriority),
        Coalesce(f.notifications, Defaults.notifications),
        Coalesce(f.emailDigest, Defaults.emailDigest),
        Coalesce(f.compactMode, Defaults.compactMode),
        Coalesce(f.showLineNumbers, Defaults.showLineNumbers),
        Coalesce(f.syntaxHighlighting, Defaults.syntaxHighlighting),
        OrString(f.sidebarPosition, Defaults.sidebarPosition))
    case _ => Defaults
  }

  /**
   * `||` and `??` part ways on a falsy stored value: a stored `false` switch
   * survives the load, while a stored empty string or size 0 is replaced by
   * the default.
   */
  lemma FalsyValues(f: StoredPrefs)
    requires f.theme == Some("") && f.codeFontSize == Some(0) && f.emailDigest == Some(false) && f.notifications == Some(false)
    ensures Load(Entry(f)).theme == "light" && Load(Entry(f)).codeFontSize == 14
    ensures !Load(Entry(f)).emailDigest && !Load(Entry(f)).notifications
  {
  }

  /** A non-empty stored string is taken even when the screen offers no such choice. */
  lemma LoadTakesUnofferedValues(f: StoredPrefs)
    requires f.theme == Some("purple") && f.codeFontSize == Some(99)
    ensures !Offered(Load(Entry(f)))
  {
  }

  // ---------------------------------------------------------------------------
  // Save and reset
  // ---------------------------------------------------------------------------

  /** `handleSaveSettings`: every preference is written, none left out. */
  function Save(p: Prefs): (s: Stored)
    ensures s.Entry?
    ensures var f := s.fields;
      && f.theme.Some? && f.codeFont.Some? && f.codeFontSize.Some? && f.defaultTaskType.Some?
      && f.defaultPriority.Some? && f.notifications.Some? && f.emailDigest.Some? && f.compactMode.Some?
      && f.showLineNumbers.Some? && f.syntaxHighlighting.Some? && f.sidebarPosition.Some?
  {
    Entry(StoredPrefs(
      Some(p.theme), Some(p.codeFont), Some(p.codeFontSize), Some(p.defaultTaskType), Some(p.defaultPriority),
      Some(p.notifications), Some(p.emailDigest), Some(p.compactMode), Some(p.showLineNumbers),
      Some(p.syntaxHighlighting), Some(p.sidebarPosition)))
  }

  /** The preferences that come back unchanged from a save: no empty string and no size 0. */
  predicate Restorable(p: Prefs) {
    && p.theme != "" && p.codeFont != "" && p.defaultTaskType != "" && p.defaultPriority != ""
    && p.sidebarPosition != "" && p.codeFontSize != 0
  }

  /** Loading what was saved gives back the same preferences exactly when they are restorable. */
  lemma SaveLoadRoundTrip(p: Prefs)
    ensures Load(Save(p)) == p <==> Restorable(p)
  {
  }

  /** The offered values and the defaults are all restorable. */
  lemma OfferedRestorable(p: Prefs)
    requires Offered(p)
    ensures Restorable(p)
  {
  }

  /** `handleResetSettings`: the defaults, and the stored entry removed, so the next load gives the defaults too. */
  function Reset(): (r: (Prefs, Stored))
    ensures r.0 == Load(r.1)
    ensures r.0 == Defaults && Offered(r.0)
  {
    (Defaults, NoEntry)
  }

  // ---------------------------------------------------------------------------
  // The controls
  // ---------------------------------------------------------------------------

  /** A switch on the screen. */
  datatype Switch = Notifications | EmailDigest | CompactMode | LineNumbers | SyntaxHighlighting

  /** What a user can do to one preference. */
  datatype Control =
    | PickTheme(v: string)
    | PickCodeFont(v: string)
    | PickTaskType(v: string)
    | PickPriority(v: string)
    | PickSidebar(v: string)
    | Slide(position: int)
    | Flip(sw: Switch)

  /** The buttons only ever send one of their list's values. */
  predicate Sendable(c: Control) {
    match c
    case PickTheme(v) => v in Themes
    case PickCodeFont(v) => v in CodeFonts
    case PickTaskType(v) => v in TaskTypes
    case PickPriority(v) => v in Priorities
    case PickSidebar(v) => v in SidebarPositions
    case _ => true
  }

  /** A range input with `min="10"` and `max="20"` reports its position clamped to that range. */
  function SliderValue(position: int): (v: int)
    ensures MinFontSize <= v <= MaxFontSize
    ensures MinFontSize <= position <= MaxFontSize ==> v == position
  {
    if position < MinFontSize then MinFontSize
    else if position > MaxFontSize then MaxFontSize
    else position
  }

  /** A control's effect on the preferences; every other preference keeps its value. */
  function Apply(p: Prefs, c: Control): (q: Prefs)
    requires Sendable(c)
    ensures c.Flip? ==> q.theme == p.theme && q.codeFontSize == p.codeFontSize
    ensures c.Slide? ==> q == p.(codeFontSize := SliderValue(c.position))
    ensures !c.PickTheme? ==> q.theme == p.theme
    // what the control sets
    ensures c.PickTheme? ==> q.theme == c.v
    ensures c.PickCodeFont? ==> q.codeFont == c.v
    ensures c.PickTaskType? ==> q.defaultTaskType == c.v
    ensures c.PickPriority? ==> q.defaultPriority == c.v
    ensures c.PickSidebar? ==> q.sidebarPosition == c.v
    ensures c == Flip(Notifications) ==> q.notifications == !p.notifications
    ensures c == Flip(EmailDigest) ==> q.emailDigest == !p.emailDigest
    ensures c == Flip(CompactMode) ==> q.compactMode == !p.compactMode
    ensures c == Flip(LineNumbers) ==> q.showLineNumbers == !p.showLineNumbers
    ensures c == Flip(SyntaxHighlighting) ==> q.syntaxHighlighting == !p.syntaxHighlighting
    // and only its own preference moves
    ensures q.codeFont != p.codeFont ==> c.PickCodeFont?
    ensures q.codeFontSize != p.codeFontSize ==> c.Slide?
    ensures q.defaultTaskType != p.defaultTaskType ==> c.PickTaskType?
    ensures q.defaultPriority != p.defaultPriority ==> c.PickPriority?
    ensures q.sidebarPosition != p.sidebarPosition ==> c.PickSidebar?
    ensures q.notifications != p.notifications ==> c == Flip(Notifications)
    ensures q.emailDigest != p.emailDigest ==> c == Flip(EmailDigest)
    ensures q.compactMode != p.compactMode ==> c == Flip(CompactMode)
    ensures q.showLineNumbers != p.showLineNumbers ==> c == Flip(LineNumbers)
    ensures q.syntaxHighlighting != p.syntaxHighlighting ==> c == Flip(SyntaxHighlighting)
  {
    match c
    case PickTheme(v) => p.(theme := v)
    case PickCodeFont(v) => p.(codeFont := v)
    case PickTaskType(v) => p.(defaultTaskType := v)
    case PickPriority(v) => p.(defaultPriority := v)
    case PickSidebar(v) => p.(sidebarPosition := v)
    case Slide(position) => p.(codeFontSize := SliderValue(position))
    case Flip(Notifications) => p.(notifications := !p.notifications)
    case Flip(EmailDigest) => p.(emailDigest := !p.emailDigest)
    case Flip(CompactMode) => p.(compactMode := !p.compactMode)
    case Flip(LineNumbers) => p.(showLineNumbers := !p.showLineNumbers)
    case Flip(SyntaxHighlighting) => p.(syntaxHighlighting := !p.syntaxHighlighting)
  }

  /** The controls keep every preference among the offered values, the size within 10..20 included. */
  lemma ApplyKeepsOffered(p: Prefs, c: Control)
    requires Offered(p) && Sendable(c)
    ensures Offered(Apply(p, c))
  {
  }

  /** Flipping a switch twice leaves the preferences as they were. */
  lemma FlipTwice(p: Prefs, sw: Switch)
    ensures Apply(Apply(p, Flip(sw)), Flip(sw)) == p
  {
  }

  // ---------------------------------------------------------------------------
  // The theme
  // ---------------------------------------------------------------------------

  /** The theme effect: "dark" sets the class, "light" clears it, any other value follows the system preference. */
  function DarkClass(theme: string, prefersDark: bool): (dark: bool)
    ensures theme == "dark" ==> dark
    ensures theme == "light" ==> !dark
    ensures theme != "dark" && theme != "light" ==> dark == prefersDark
  {
    if theme == "dark" then true
    else if theme == "light" then false
    else prefersDark
  }

  /**
   * The screen after mount: the preferences, the stored entry and whether
   * the root carries the "dark" class.
   */
  datatype Screen = Screen(prefs: Prefs, stored: Stored, dark: bool)

  /** Mounting loads the entry, then the theme effect runs on the loaded theme. */
  function Mount(stored: Stored, prefersDark: bool): (s: Screen)
    ensures s.prefs == Load(stored) && s.stored == stored
    ensures s.dark == DarkClass(s.prefs.theme, prefersDark)
  {
    var p := Load(stored);
    Screen(p, stored, DarkClass(p.theme, prefersDark))
  }

  /** A control; the theme effect runs again only when the theme changed. */
  function Change(s: Screen, c: Control, prefersDark: bool): (t: Screen)
    requires Sendable(c)
    ensures t.prefs == Apply(s.prefs, c) && t.stored == s.stored
    ensures t.prefs.theme == s.prefs.theme ==> t.dark == s.dark
    ensures t.prefs.theme != s.prefs.theme ==> t.dark == DarkClass(t.prefs.theme, prefersDark)
  {
    var p := Apply(s.prefs, c);
    Screen(p, s.stored, if p.theme != s.prefs.theme then DarkClass(p.theme, prefersDark) else s.dark)
  }

  /** The save button: the entry is overwritten with every preference and the class is set or cleared for an explicit theme. */
  function SaveScreen(s: Screen): (t: Screen)
    ensures t.prefs == s.prefs
    ensures t.stored.Entry?
    ensures Restorable(s.prefs) ==> Load(t.stored) == s.prefs
    ensures s.prefs.theme == "dark" ==> t.dark
    ensures s.prefs.theme == "light" ==> !t.dark
    ensures s.prefs.theme != "dark" && s.prefs.theme != "light" ==> t.dark == s.dark
  {
    SaveLoadRoundTrip(s.prefs);
    // the same three-way choice as the effect, with the current class as the fallback
    Screen(s.prefs, Save(s.prefs), DarkClass(s.prefs.theme, s.dark))
  }

  /** The reset button: the defaults, no entry, and the effect runs when the theme was not already the default one. */
  function ResetScreen(s: Screen, prefersDark: bool): (t: Screen)
    ensures t.prefs == Defaults && t.stored == NoEntry
    ensures t.prefs == Load(t.stored)
  {
    var (p, stored) := Reset();
    Screen(p, stored, if p.theme != s.prefs.theme then DarkClass(p.theme, prefersDark) else s.dark)
  }

  /** The class agrees with the theme as the effect would set it. */
  predicate ClassInSync(s: Screen, prefersDark: bool) {
    s.dark == DarkClass(s.prefs.theme, prefersDark)
  }

  /**
   * While the system preference holds still, every step of the screen keeps
   * the class in step with the theme; in particular the save's own class
   * change is never a change.
   */
  lemma ClassStaysInSync(s: Screen, c: Control, prefersDark: bool)
    requires ClassInSync(s, prefersDark)
    ensures ClassInSync(Mount(s.stored, prefersDark), prefersDark)
    ensures Sendable(c) ==> ClassInSync(Change(s, c, prefersDark), prefersDark)
    ensures ClassInSync(SaveScreen(s), prefersDark) && SaveScreen(s).dark == s.dark
    ensures ClassInSync(ResetScreen(s, prefersDark), prefersDark) && !ResetScreen(s, prefersDark).dark
  {
  }

  /**
   * Under "auto" the save leaves the class alone, so a class that no longer
   * matches the system preference stays as it is.
   */
  lemma SaveIgnoresAuto(s: Screen, prefersDark: bool)
    requires s.prefs.theme == "auto" && s.dark != prefersDark
    ensures SaveScreen(s).dark != DarkClass("auto", prefersDark)
  {
  }

  /**
   * After saving, a fresh mount shows the same preferences and class, as
   * long as the preferences are restorable and the system preference has
   * not changed.
   */
  lemma SaveThenMount(s: Screen, prefersDark: bool)
    requires ClassInSync(s, prefersDark) && Restorable(s.prefs)
    ensures Mount(SaveScreen(s).stored, prefersDark) == SaveScreen(s)
  {
    SaveLoadRoundTrip(s.prefs);
  }
}
