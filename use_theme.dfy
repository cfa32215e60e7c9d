/** The theme hook of src/hooks/useTheme.ts: the chosen theme (light, dark or
    system), the theme actually shown, its persistence in local storage under
    the key 'theme', and the 'light'/'dark' class on the document's root
    element. The browser globals are abstract state: local storage is a string
    map, the colour-scheme media query a boolean, the root class list a
    sequence of class names. */
module UseTheme {
  import opened Wrappers

  datatype Theme = Light | Dark | System

  /** A theme that can be shown: 'light' or 'dark'. */
  type ActualTheme = t: Theme | t != System witness Light

  function ThemeName(t: Theme): string {
    match t
    case Light => "light"
    case Dark => "dark"
    case System => "system"
  }

  /** `['light', 'dark', 'system'].includes(s)`, giving the theme it names. */
  function ParseTheme(s: string): (r: Option<Theme>)
    ensures r.Some? ==> ThemeName(r.value) == s
  {
    if s == "light" then Some(Light)
    else if s == "dark" then Some(Dark)
    else if s == "system" then Some(System)
    else None
  }

  /** Every theme's name parses back to it, and nothing else parses. */
  lemma ParseThemeName(t: Theme, s: string)
    ensures ParseTheme(ThemeName(t)) == Some(t)
    ensures ParseTheme(s).None? <==> s != "light" && s != "dark" && s != "system"
  {
  }

  const StorageKey: string := "theme"

  /** The initial value of `theme`: the stored entry when it names a theme,
      'system' otherwise (and always 'system' without a window). */
  function InitialTheme(hasWindow: bool, storage: map<string, string>): (t: Theme)
    ensures t != System ==> hasWindow && StorageKey in storage && storage[StorageKey] == ThemeName(t)
    ensures hasWindow && StorageKey in storage && ParseTheme(storage[StorageKey]).Some? ==>
              t == ParseTheme(storage[StorageKey]).value
  {
    if hasWindow && StorageKey in storage && storage[StorageKey] != "" && ParseTheme(storage[StorageKey]).Some? then
      ParseTheme(storage[StorageKey]).value
    else
      System
  }

  /** getSystemTheme(): the colour-scheme preference, or 'dark' without a window. */
  function GetSystemTheme(hasWindow: bool, prefersDark: bool): (t: ActualTheme)
    ensures !hasWindow ==> t == Dark
    ensures hasWindow ==> (t == Dark <==> prefersDark)
  {
    if !hasWindow then Dark
    else if prefersDark then Dark
    else Light
  }

  /** `theme === 'system' ? getSystemTheme() : theme` */
  function ResolveTheme(theme: Theme, systemTheme: ActualTheme): (t: ActualTheme)
    ensures theme != System ==> t == theme
    ensures theme == System ==> t == systemTheme
  {
    if theme == System then systemTheme else theme
  }

  // ---------------------------------------------------------------------------
  // The root element's class list
  // ---------------------------------------------------------------------------

  const ThemeClasses: set<string> := {"light", "dark"}

  /** A DOMTokenList never holds the same token twice. */
  predicate Distinct(classes: seq<string>) {
    forall i, j :: 0 <= i < j < |classes| ==> classes[i] != classes[j]
  }

  /** `classList.remove(...tokens)`: every occurrence of each token goes. */
  function RemoveClasses(classes: seq<string>, tokens: set<string>): (r: seq<string>)
    ensures forall c :: c in r <==> c in classes && c !in tokens
    ensures Distinct(classes) ==> Distinct(r)
  {
    if classes == [] then []
    else
      var rest := RemoveClasses(classes[1..], tokens);
      if classes[0] in tokens then rest else [classes[0]] + rest
  }

  /** The classes of `classes` that are among `tokens`, in order. */
  function KeepClasses(classes: seq<string>, tokens: set<string>): seq<string> {
    if classes == [] then []
    else if classes[0] in tokens then [classes[0]] + KeepClasses(classes[1..], tokens)
    else KeepClasses(classes[1..], tokens)
  }

  /** `classList.add(token)`: appended unless already there. The old classes
      keep their places, the token is present afterwards and nothing else is
      added. */
  function AddClass(classes: seq<string>, token: string): (r: seq<string>)
    ensures forall c :: c in r <==> c in classes || c == token
    ensures |classes| <= |r| <= |classes| + 1 && r[..|classes|] == classes
    ensures Distinct(classes) ==> Distinct(r)
  {
    if token in classes then classes else classes + [token]
  }

  /** `root.classList.remove('light', 'dark'); root.classList.add(name)`.
      Afterwards the root carries exactly one theme class, the shown theme's,
      and its other classes are the old ones in their old order. */
  function ApplyThemeClass(classes: seq<string>, t: ActualTheme): (r: seq<string>)
    ensures KeepClasses(r, ThemeClasses) == [ThemeName(t)]
    ensures RemoveClasses(r, ThemeClasses) == RemoveClasses(classes, ThemeClasses)
    ensures Distinct(classes) ==> Distinct(r)
  {
    var kept := RemoveClasses(classes, ThemeClasses);
    var name := ThemeName(t);
    assert name in ThemeClasses && name !in kept;
    RemoveClassesAppend(kept, [name], ThemeClasses);
    KeepClassesAppend(kept, [name], ThemeClasses);
    RemoveThenKeep(classes, ThemeClasses);
    assert [name][1..] == [];
    AddClass(kept, name)
  }

  lemma {:induction false} RemoveClassesAppend(xs: seq<string>, ys: seq<string>, tokens: set<string>)
    ensures RemoveClasses(xs + ys, tokens) == RemoveClasses(xs, tokens) + RemoveClasses(ys, tokens)
  {
    if xs != [] {
      assert (xs + ys)[0] == xs[0] && (xs + ys)[1..] == xs[1..] + ys;
      RemoveClassesAppend(xs[1..], ys, tokens);
    } else {
      assert xs + ys == ys;
    }
  }

  lemma {:induction false} KeepClassesAppend(xs: seq<string>, ys: seq<string>, tokens: set<string>)
    ensures KeepClasses(xs + ys, tokens) == KeepClasses(xs, tokens) + KeepClasses(ys, tokens)
  {
    if xs != [] {
      assert (xs + ys)[0] == xs[0] && (xs + ys)[1..] == xs[1..] + ys;
      KeepClassesAppend(xs[1..], ys, tokens);
    } else {
      assert xs + ys == ys;
    }
  }

  lemma {:induction false} RemoveThenKeep(xs: seq<string>, tokens: set<string>)
    ensures RemoveClasses(RemoveClasses(xs, tokens), tokens) == RemoveClasses(xs, tokens)
    ensures KeepClasses(RemoveClasses(xs, tokens), tokens) == []
  {
    if xs != [] {
      RemoveThenKeep(xs[1..], tokens);
      if xs[0] !in tokens {
        var rest := RemoveClasses(xs[1..], tokens);
        assert ([xs[0]] + rest)[1..] == rest;
      }
    }
  }

  // ---------------------------------------------------------------------------
  // The hook's state
  // ---------------------------------------------------------------------------

  /** One mounted useTheme hook together with the browser state it touches. */
  class ThemeHook {
    /** `typeof window !== 'undefined'` */
    const hasWindow: bool
    /** `typeof document !== 'undefined'` */
    const hasDocument: bool
    /** Whether `(prefers-color-scheme: dark)` currently matches. */
    var prefersDark: bool
    /** The chosen theme (state `theme`). */
    var theme: Theme
    /** The theme shown (state `actualTheme`). */
    var actualTheme: ActualTheme
    /** Local storage. */
    var storage: map<string, string>
    /** The class list of the document's root element. */
    var rootClasses: seq<string>

    /** The class invariant: the root element's class list holds no token twice. */
    predicate Valid()
      reads this
    {
      Distinct(rootClasses)
    }

    /** The two useState initialisers: the saved theme, and 'dark' shown until
        the first update. */
    constructor (hasWindow: bool, hasDocument: bool, prefersDark: bool, storage: map<string, string>, rootClasses: seq<string>)
      requires Distinct(rootClasses)
      ensures Valid()
      ensures this.hasWindow == hasWindow && this.hasDocument == hasDocument && this.prefersDark == prefersDark
      ensures this.storage == storage && this.rootClasses == rootClasses
      ensures theme == InitialTheme(hasWindow, storage)
      ensures actualTheme == Dark
    {
      this.hasWindow := hasWindow;
      this.hasDocument := hasDocument;
      this.prefersDark := prefersDark;
      this.storage := storage;
      this.rootClasses := rootClasses;
      theme := InitialTheme(hasWindow, storage);
      actualTheme := Dark;
    }

    /** updateActualTheme(): resolve the chosen theme and put exactly that
        class on the root element. */
    method UpdateActualTheme()
      modifies this`actualTheme, this`rootClasses
      requires Valid()
      ensures Valid()
      ensures actualTheme == ResolveTheme(theme, GetSystemTheme(hasWindow, prefersDark))
      ensures rootClasses == if hasDocument then ApplyThemeClass(old(rootClasses), actualTheme) else old(rootClasses)
    {
      var newActualTheme := ResolveTheme(theme, GetSystemTheme(hasWindow, prefersDark));
      actualTheme := newActualTheme;
      if hasDocument {
        rootClasses := RemoveClasses(rootClasses, ThemeClasses);
        rootClasses := AddClass(rootClasses, ThemeName(newActualTheme));
      }
    }

    /** setTheme(newTheme): the same value goes to state and to storage. */
    method SetTheme(newTheme: Theme)
      modifies this`theme, this`storage
      requires Valid()
      ensures Valid()
      ensures theme == newTheme
      ensures storage == if hasWindow then old(storage)[StorageKey := ThemeName(newTheme)] else old(storage)
    {
      theme := newTheme;
      if hasWindow {
        storage := storage[StorageKey := ThemeName(newTheme)];
      }
    }

    /** The media query's 'change' listener (registered only when there is a
        window): the shown theme follows the preference only while the chosen
        theme is 'system'. */
    method SystemPreferenceChanged(nowPrefersDark: bool)
      modifies this`prefersDark, this`actualTheme, this`rootClasses
      requires Valid()
      ensures Valid()
      ensures prefersDark == nowPrefersDark
      ensures hasWindow && theme == System ==>
                actualTheme == (if nowPrefersDark then Dark else Light) &&
                rootClasses == if hasDocument then ApplyThemeClass(old(rootClasses), actualTheme) else old(rootClasses)
      ensures !(hasWindow && theme == System) ==>
                actualTheme == old(actualTheme) && rootClasses == old(rootClasses)
    {
      prefersDark := nowPrefersDark;
      if hasWindow && theme == System {
        UpdateActualTheme();
      }
    }
  }

  /** A theme chosen with setTheme is the one a later mount starts from. */
  lemma SavedThemeIsRestored(storage: map<string, string>, t: Theme)
    ensures InitialTheme(true, storage[StorageKey := ThemeName(t)]) == t
  {
    ParseThemeName(t, ThemeName(t));
  }

  /** Choose a theme, then mount the hook again on the same storage: the new
      hook starts with the chosen theme and, once updated, shows it (or the
      system preference for 'system') with exactly one theme class. */
  method ChooseThenRemount(choice: Theme, storage: map<string, string>, classes: seq<string>, prefersDark: bool)
    returns (restored: Theme, shown: ActualTheme, rootClasses: seq<string>)
    requires Distinct(classes)
    ensures Distinct(rootClasses)
    ensures restored == choice
    ensures shown == ResolveTheme(choice, if prefersDark then Dark else Light)
    ensures KeepClasses(rootClasses, ThemeClasses) == [ThemeName(shown)]
    ensures RemoveClasses(rootClasses, ThemeClasses) == RemoveClasses(classes, ThemeClasses)
  {
    var first := new ThemeHook(true, true, prefersDark, storage, classes);
    first.SetTheme(choice);
    SavedThemeIsRestored(storage, choice);
    var second := new ThemeHook(true, true, prefersDark, first.storage, classes);
    second.UpdateActualTheme();
    restored, shown, rootClasses := second.theme, second.actualTheme, second.rootClasses;
  }
}
