/**
 * The theme provider: the current theme, its reflection on the document
 * root (the `data-theme` attribute and the `dark` class), and the copy kept
 * in local storage.
 */
module Theme {
  import opened Wrappers
  import opened JsText

  const Light: string := "light"
  const Dark: string := "dark"

  /** The theme the system asks for. */
  function SystemTheme(prefersDark: bool): (t: string)
    ensures t == Dark <==> prefersDark
    ensures t in {Light, Dark}
  {
    if prefersDark then Dark else Light
  }

  /** toggleTheme's update: "light" becomes "dark", anything else "light". */
  function Toggled(t: string): (r: string)
    ensures r in {Light, Dark}
    ensures r == Dark <==> t == Light
  {
    if t == Light then Dark else Light
  }

  /** On the two themes, toggling twice changes nothing. */
  lemma ToggleTwiceIsIdentity(t: string)
    requires t in {Light, Dark}
    ensures Toggled(Toggled(t)) == t
  {
  }

  /** A stored value that is neither theme does not come back: it becomes "dark" after two toggles. */
  lemma ToggleTwiceNormalises(t: string)
    requires t !in {Light, Dark}
    ensures Toggled(t) == Light && Toggled(Toggled(t)) == Dark
  {
  }

  /** The value the mount effect settles on: the stored theme if truthy, else the system's. */
  function MountedTheme(stored: Option<string>, prefersDark: bool): (t: string)
    ensures Truthy(stored) ==> t == stored.value
    ensures !Truthy(stored) ==> t == SystemTheme(prefersDark)
  {
    OrElse(stored, SystemTheme(prefersDark))
  }

  /**
   * Mounting settles: the mounted theme, once stored, is what every later
   * mount picks, whatever the system then prefers; and it is one of the
   * two themes unless a foreign value was stored.
   */
  lemma MountedThemeIsStable(stored: Option<string>, prefersDark: bool, laterPrefersDark: bool)
    ensures MountedTheme(Some(MountedTheme(stored, prefersDark)), laterPrefersDark) == MountedTheme(stored, prefersDark)
    ensures (!Truthy(stored) || stored.value in {Light, Dark}) ==> MountedTheme(stored, prefersDark) in {Light, Dark}
  {
  }

  /** The document root and the storage for a theme value. */
  class ThemeProvider {
    var theme: string
    var dataTheme: string
    var darkClass: bool
    var stored: Option<string>

    /** The root and the storage reflect the current theme. */
    ghost predicate Applied()
      reads this
    {
      && dataTheme == (if theme == Dark then Dark else Light)
      && darkClass == (theme == Dark)
      && stored == Some(theme)
    }

    /** Before any effect runs: the theme is "light"; the root and storage are as found. */
    constructor (dataTheme: string, darkClass: bool, stored: Option<string>)
      ensures theme == Light
      ensures this.dataTheme == dataTheme && this.darkClass == darkClass && this.stored == stored
    {
      theme := Light;
      this.dataTheme, this.darkClass, this.stored := dataTheme, darkClass, stored;
    }

    /** The `[theme]` effect: reflect the theme on the root, then store it. */
    method ApplyTheme()
      modifies this`dataTheme, this`darkClass, this`stored
      ensures Applied()
    {
      if theme == Dark {
        dataTheme, darkClass := Dark, true;
      } else {
        dataTheme, darkClass := Light, false;
      }
      stored := Some(theme);
    }

    /**
     * Mounting: the read effect takes the stored value before the first
     * run of the `[theme]` effect stores "light"; then the read value
     * becomes the theme and is applied.
     */
    method Mount(prefersDark: bool)
      requires theme == Light
      modifies this
      ensures theme == MountedTheme(old(stored), prefersDark)
      ensures Applied()
    {
      var saved := MountedTheme(stored, prefersDark);
      ApplyTheme();
      theme := saved;
      ApplyTheme();
    }

    /** toggleTheme, followed by the `[theme]` effect. */
    method ToggleTheme()
      modifies this
      ensures theme == Toggled(old(theme))
      ensures Applied()
    {
      theme := Toggled(theme);
      ApplyTheme();
    }
  }

  /** A saved "dark" survives a reload even though "light" is applied first. */
  lemma SavedDarkSurvivesMount(prefersDark: bool)
    ensures MountedTheme(Some(Dark), prefersDark) == Dark
  {
  }
}
