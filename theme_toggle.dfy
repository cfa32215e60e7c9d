/** The theme switcher of src/components/ThemeToggle.tsx: the button that
    steps light → dark → system → light, the labels and icons of each theme,
    and the check mark of the drop-down menu. The component receives the theme
    as a string, so these functions take the name and cope with names that are
    not themes the way the component does. */
module ThemeToggle {
  import opened UseTheme

  /** `['light', 'dark', 'system']`: the order of the button and of the menu. */
  const ThemeOrder: seq<Theme> := [Light, Dark, System]

  /** `themes.indexOf(name)`: the position of the theme named `name`, or -1. */
  function IndexOfTheme(name: string): (i: int)
    ensures -1 <= i < |ThemeOrder|
    ensures 0 <= i ==> ThemeName(ThemeOrder[i]) == name
    ensures i == -1 <==> name != "light" && name != "dark" && name != "system"
  {
    if name == "light" then 0
    else if name == "dark" then 1
    else if name == "system" then 2
    else -1
  }

  /** `themes[(currentIndex + 1) % themes.length]`: the theme the button
      switches to. It is never the current one, and a name that is not a theme
      (index -1) switches to 'light'. */
  function NextTheme(current: string): (next: Theme)
    ensures ThemeName(next) != current
    ensures IndexOfTheme(current) == -1 ==> next == Light
  {
    ThemeOrder[(IndexOfTheme(current) + 1) % |ThemeOrder|]
  }

  /** The button steps light → dark → system → light. */
  lemma NextThemeCycle()
    ensures NextTheme("light") == Dark
    ensures NextTheme("dark") == System
    ensures NextTheme("system") == Light
  {
  }

  /** Three presses come back to where they started. */
  lemma NextThemeIsAThreeCycle(t: Theme)
    ensures NextTheme(ThemeName(NextTheme(ThemeName(NextTheme(ThemeName(t)))))) == t
  {
    NextThemeCycle();
  }

  /** The three icons of the component. */
  datatype Icon = Sun | Moon | Monitor

  /** getThemeIcon(themeType) */
  function GetThemeIcon(themeType: string): (icon: Icon)
    ensures icon == Sun <==> themeType == "light"
    ensures icon == Moon <==> themeType == "dark"
  {
    if themeType == "light" then Sun
    else if themeType == "dark" then Moon
    else if themeType == "system" then Monitor
    else Monitor
  }

  /** getThemeLabel(themeType) */
  function GetThemeLabel(themeType: string): (text: string)
    ensures themeType == "light" ==> text == "明亮"
    ensures themeType == "dark" ==> text == "暗黑"
    ensures themeType != "light" && themeType != "dark" ==> text == "跟随系统"
  {
    if themeType == "light" then "明亮"
    else if themeType == "dark" then "暗黑"
    else if themeType == "system" then "跟随系统"
    else "跟随系统"
  }

  /** A name that is not a theme is shown exactly like 'system'. */
  lemma UnknownThemeShownAsSystem(themeType: string)
    requires themeType != "light" && themeType != "dark" && themeType != "system"
    ensures GetThemeIcon(themeType) == GetThemeIcon("system")
    ensures GetThemeLabel(themeType) == GetThemeLabel("system")
  {
  }

  /** The three themes have three different labels and three different icons. */
  lemma ThemesAreDistinguishable(t1: Theme, t2: Theme)
    requires t1 != t2
    ensures GetThemeLabel(ThemeName(t1)) != GetThemeLabel(ThemeName(t2))
    ensures GetThemeIcon(ThemeName(t1)) != GetThemeIcon(ThemeName(t2))
  {
    var l1, l2 := GetThemeLabel(ThemeName(t1)), GetThemeLabel(ThemeName(t2));
    assert l1[0] != l2[0];
  }

  /** `theme === themeOption` for each option of the drop-down, in order:
      which options carry the highlight and the check mark. Exactly the option
      of the current theme is marked, and none when the current name is not a
      theme. */
  function SelectionMarks(current: string): (marks: seq<bool>)
    ensures |marks| == |ThemeOrder|
    ensures forall i :: 0 <= i < |marks| ==> (marks[i] <==> i == IndexOfTheme(current))
  {
    seq(|ThemeOrder|, i requires 0 <= i < |ThemeOrder| => ThemeName(ThemeOrder[i]) == current)
  }
}
