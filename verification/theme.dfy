/** The app theme: whether it is dark, which colour scheme it uses, and the
    rule that a theme nested inside another has no effect. */
module Theme {
  import opened Wrappers

  datatype DarkThemeConfig = FollowSystem | Dark | Light

  /** A preference as it loads. */
  datatype ResourceState<T> = Loading | Failure | Success(value: T)

  /** `shouldUseDarkTheme`: the system setting until the preference has
      loaded, and while it says to follow the system; otherwise the choice. */
  function ShouldUseDarkTheme(darkThemeConfigState: ResourceState<DarkThemeConfig>, isSystemInDarkTheme: bool): (dark: bool)
    ensures darkThemeConfigState == Success(Dark) ==> dark
    ensures darkThemeConfigState == Success(Light) ==> !dark
    ensures darkThemeConfigState !in {Success(Dark), Success(Light)} ==> dark == isSystemInDarkTheme
  {
    match darkThemeConfigState
    case Loading => isSystemInDarkTheme
    case Failure => isSystemInDarkTheme
    case Success(config) =>
      match config
      case FollowSystem => isSystemInDarkTheme
      case Dark => true
      case Light => false
  }

  /** A colour scheme: dark or light, and dynamic (from the wallpaper) or fixed. */
  datatype ColorScheme = ColorScheme(dark: bool, dynamic: bool)

  /** Dynamic colour (`useDynamicColorScheme`) is available from SDK level 31. */
  const DynamicColorMinSdk := 31

  /** `colorScheme`: the dark or the light scheme, each dynamic exactly when
      the platform offers dynamic colour. */
  function ColorSchemeFor(darkTheme: bool, sdkInt: int): (s: ColorScheme)
    ensures s.dark == darkTheme
    ensures s.dynamic <==> sdkInt >= 31
  {
    ColorScheme(darkTheme, sdkInt >= DynamicColorMinSdk)
  }

  /** The scheme in force inside a stack of nested themes, listed from the
      outermost: a theme applied where one already is renders its content
      unchanged. `applied` is the scheme already in force, if any. Once a
      theme is in force, inner themes change nothing; otherwise only the
      outermost of the stack takes effect. */
  function Nest(applied: Option<ColorScheme>, darkThemes: seq<bool>, sdkInt: int): (r: Option<ColorScheme>)
    ensures applied.Some? ==> r == applied
    ensures applied.None? && |darkThemes| > 0 ==> r == Some(ColorSchemeFor(darkThemes[0], sdkInt))
    ensures applied.None? && |darkThemes| == 0 ==> r.None?
    decreases |darkThemes|
  {
    if |darkThemes| == 0 then applied
    else if applied.Some? then Nest(applied, darkThemes[1..], sdkInt)
    else Nest(Some(ColorSchemeFor(darkThemes[0], sdkInt)), darkThemes[1..], sdkInt)
  }
}
