/**
  The theme toggle button. It keeps `isDark` in sync with the root element's
  `dark` class (read on mount and again on every class mutation); a click
  flips `isDark`, adds or removes `dark` on the root element, and stores
  `dark` or `light` under the theme key.
*/
module ThemeToggle {
  import opened Wrappers
  import opened Browser
  import RootLayout

  /** The value a click writes to storage for the new theme. */
  function StoredValue(dark: bool): (v: string)
    ensures v == "dark" || v == "light"
    ensures (v == "dark") == dark
  {
    if dark then "dark" else "light"
  }

  /** The root classes after a click that selects `dark`: only the `dark`
      class changes. */
  function ToggledClasses(classes: set<string>, dark: bool): (r: set<string>)
    ensures "dark" in r <==> dark
    ensures r - {"dark"} == classes - {"dark"}
  {
    if dark then classes + {"dark"} else classes - {"dark"}
  }

  /** Two clicks from a synchronised state give back the same root classes
      and the same `isDark`. */
  lemma ToggleTwiceRestores(classes: set<string>, dark: bool)
    requires dark == ("dark" in classes)
    ensures ToggledClasses(ToggledClasses(classes, !dark), dark) == classes
  {
    var twice := ToggledClasses(ToggledClasses(classes, !dark), dark);
    assert forall c :: c in twice <==> c in classes;
  }

  /** After any click the stored value is `dark` or `light`, and neither is
      a value the start-up script recognises: the next load comes up light
      even when the user chose dark. */
  lemma ToggledChoiceNotRestored(storage: map<string, string>, dark: bool)
    ensures !RootLayout.DarkAfterLoad(storage[RootLayout.ThemeKey := StoredValue(dark)])
  {
    RootLayout.DarkAfterLoadIff(storage[RootLayout.ThemeKey := StoredValue(dark)]);
  }

  /** The start-up rule the toggle's values call for: `dark` (and, for old
      visitors, `theme-dark`) or nothing stored means dark. */
  predicate IntendedAddsDark(stored: Option<string>)
  {
    stored == Some("dark") || stored == Some("theme-dark") || stored == None || stored == Some("")
  }

  predicate IntendedDarkAfterLoad(storage: map<string, string>)
  {
    IntendedAddsDark(GetItem(storage, RootLayout.ThemeKey))
  }

  /** With that rule a load restores whatever the last click chose, and a
      first visit still comes up dark. */
  lemma IntendedLoadRestoresChoice(storage: map<string, string>, dark: bool)
    ensures IntendedDarkAfterLoad(storage[RootLayout.ThemeKey := StoredValue(dark)]) == dark
    ensures RootLayout.ThemeKey !in storage ==> IntendedDarkAfterLoad(storage)
  {
  }

  class ThemeToggle {
    const doc: Document
    var isDark: bool
    var mounted: bool

    /** Before mount the state defaults to dark and a placeholder is shown. */
    constructor (doc: Document)
      ensures this.doc == doc && isDark && !mounted
    {
      this.doc := doc;
      isDark := true;
      mounted := false;
    }

    /** The mount effect: read the root class list. */
    method Mount()
      modifies this`isDark, this`mounted
      ensures mounted
      ensures isDark == ("dark" in doc.rootClasses)
    {
      mounted := true;
      isDark := "dark" in doc.rootClasses;
    }

    /** The mutation observer's callback on a change of the root classes. */
    method OnRootClassMutation()
      modifies this`isDark
      ensures isDark == ("dark" in doc.rootClasses)
    {
      isDark := "dark" in doc.rootClasses;
    }

    /** `toggleTheme`. Afterwards `isDark` and the root classes agree, even
        if they did not before. */
    method Toggle()
      modifies this`isDark, doc
      ensures isDark == !old(isDark)
      ensures doc.rootClasses == ToggledClasses(old(doc.rootClasses), isDark)
      ensures doc.storage == old(doc.storage)[RootLayout.ThemeKey := StoredValue(isDark)]
      ensures isDark == ("dark" in doc.rootClasses)
    {
      var newTheme := if isDark then "light" else "dark";
      if newTheme == "dark" {
        doc.rootClasses := doc.rootClasses + {"dark"};
      } else {
        doc.rootClasses := doc.rootClasses - {"dark"};
      }
      doc.storage := doc.storage[RootLayout.ThemeKey := newTheme];
      isDark := !isDark;
    }
  }
}
