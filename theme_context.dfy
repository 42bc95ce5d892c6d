/**
  The theme store: a three-valued theme preference held by the provider,
  the effective "is dark" flag resolved against the colour scheme the host
  reports, and the palette chosen by that flag.
 */
module ThemeContext {
  import opened Wrappers

  /** The user's theme preference. */
  datatype Mode = Light | Dark | System

  /** The colour scheme the host reports; it may be missing (null or undefined). */
  datatype HostScheme = SchemeLight | SchemeDark | SchemeNull | SchemeUndefined

  /** A palette of twelve named colours; the colour values are opaque strings. */
  datatype Palette = Palette(
    primary: string,
    secondary: string,
    accent: string,
    background: string,
    card: string,
    text: string,
    textSecondary: string,
    border: string,
    notification: string,
    success: string,
    warning: string,
    error: string)

  const LightColors: Palette := Palette(
    "#0F3460", "#9A1750", "#E94560", "#F5F5F5", "#FFFFFF", "#212121",
    "#757575", "#DDDDDD", "#0F3460", "#4CAF50", "#FFC107", "#E53935")

  const DarkColors: Palette := Palette(
    "#4C83C2", "#C74B7B", "#FF6B8B", "#121212", "#1E1E1E", "#F5F5F5",
    "#BBBBBB", "#333333", "#4C83C2", "#66BB6A", "#FFCA28", "#EF5350")

  /** The message the guard raises when no provider encloses the caller. */
  const ThemeProviderMissing: string := "useTheme must be used within a ThemeProvider"

  /** Position of a mode on the toggle cycle light, dark, system. */
  function CyclePosition(m: Mode): nat {
    match m
    case Light => 0
    case Dark => 1
    case System => 2
  }

  /** The successor rule of toggleTheme: light to dark, dark to system, anything else to light. */
  function Next(m: Mode): (r: Mode)
    ensures CyclePosition(r) == (CyclePosition(m) + 1) % 3
    ensures r != m
  {
    if m == Light then Dark
    else if m == Dark then System
    else Light
  }

  /** The effective dark flag: the host decides in system mode, the preference otherwise. */
  function IsDark(mode: Mode, scheme: HostScheme): (r: bool)
    ensures mode == System ==> (r <==> scheme == SchemeDark)
    ensures mode != System ==> (r <==> mode == Dark)
  {
    if mode == System then scheme == SchemeDark else mode == Dark
  }

  /** The palette for an effective dark flag. */
  function Colors(isDark: bool): (p: Palette)
    ensures p == DarkColors <==> isDark
    ensures p == LightColors <==> !isDark
  {
    if isDark then DarkColors else LightColors
  }

  /** What the provider publishes to the components below it. */
  datatype ThemeContextValue = ThemeContextValue(theme: Mode, colors: Palette, isDark: bool)

  /** A published value is coherent when its flag and palette follow from its theme and the host scheme. */
  predicate Coherent(c: ThemeContextValue, scheme: HostScheme) {
    c.isDark == IsDark(c.theme, scheme) && c.colors == Colors(c.isDark)
  }

  /** The provider's state cell `theme`, overwritten by setTheme and toggleTheme. */
  class ThemeProvider {
    var theme: Mode

    /** A fresh provider starts in system mode. */
    constructor ()
      ensures theme == System
    {
      theme := System;
    }

    method SetTheme(t: Mode)
      modifies this
      ensures theme == t
    {
      theme := t;
    }

    method ToggleTheme()
      modifies this
      ensures theme == Next(old(theme))
    {
      theme := Next(theme);
    }

    /** The value published on a render where the host reports `scheme`. */
    function Value(scheme: HostScheme): (c: ThemeContextValue)
      reads this
      ensures c.theme == theme
      ensures Coherent(c, scheme)
      ensures c.isDark <==> theme == Dark || (theme == System && scheme == SchemeDark)
    {
      var dark := IsDark(theme, scheme);
      ThemeContextValue(theme, Colors(dark), dark)
    }
  }

  /** The guard of useTheme: the enclosing provider's value, or an error when there is none. */
  function UseTheme(context: Option<ThemeContextValue>): (r: Result<ThemeContextValue, string>)
    ensures r.Success? <==> context.Some?
    ensures r.Success? ==> r.value == context.value
    ensures r.Failure? ==> r.error == ThemeProviderMissing
  {
    match context
    case None => Failure(ThemeProviderMissing)
    case Some(c) => Success(c)
  }

  /** Toggling three times returns every mode to itself, and no fewer toggles do. */
  lemma ToggleCycleHasPeriodThree(m: Mode)
    ensures Next(Next(Next(m))) == m
    ensures Next(m) != m && Next(Next(m)) != m
  {
  }

  /** Repeated toggling from any mode visits all three modes. */
  lemma ToggleVisitsEveryMode(m: Mode, target: Mode)
    ensures target in {m, Next(m), Next(Next(m))}
  {
  }

  /** With an explicit preference the host scheme has no influence. */
  lemma ExplicitModeIgnoresHost(mode: Mode, s1: HostScheme, s2: HostScheme)
    requires mode != System
    ensures IsDark(mode, s1) == IsDark(mode, s2)
  {
  }

  /** In system mode a host that reports nothing, or light, gives the light theme. */
  lemma MissingHostSchemeIsLight(scheme: HostScheme)
    requires scheme != SchemeDark
    ensures !IsDark(System, scheme)
    ensures Colors(IsDark(System, scheme)) == LightColors
  {
  }

  /** The two palettes differ, so the palette alone tells whether the theme is dark. */
  lemma ColorsDetermineDarkness(a: bool, b: bool)
    ensures Colors(a) == Colors(b) <==> a == b
  {
  }
}
