/**
  The inline script the root layout runs before the page is hydrated, so
  that the first paint already has the right theme: it reads the stored
  theme and adds the `dark` class to the root element when the stored value
  is missing, empty or `theme-dark`. It never removes a class.
*/
module RootLayout {
  import opened Wrappers
  import opened Browser

  /** The storage key both the script and the toggle use. */
  const ThemeKey: string := "theme"

  /** JavaScript truthiness of what `getItem` returns: `null` and the
      empty string are falsy. */
  predicate Truthy(stored: Option<string>)
  {
    stored.Some? && stored.value != ""
  }

  /** `stored === 'theme-dark' || !stored`: exactly three stored values
      turn the page dark. */
  predicate AddsDark(stored: Option<string>)
    ensures AddsDark(stored) <==> stored == None || stored == Some("") || stored == Some("theme-dark")
  {
    stored == Some("theme-dark") || !Truthy(stored)
  }

  /** The root classes after the script, from the stored value and the
      classes before it. */
  function StartupClasses(stored: Option<string>, classes: set<string>): (r: set<string>)
    ensures classes <= r
    ensures r - {"dark"} == classes - {"dark"}
    ensures "dark" in r <==> "dark" in classes || AddsDark(stored)
  {
    if AddsDark(stored) then classes + {"dark"} else classes
  }

  /** The script itself, run against the document. */
  method RunThemeScript(doc: Document)
    modifies doc`rootClasses
    ensures doc.rootClasses == StartupClasses(GetItem(doc.storage, ThemeKey), old(doc.rootClasses))
  {
    var stored := GetItem(doc.storage, ThemeKey);
    if stored == Some("theme-dark") || stored == None || stored == Some("") {
      doc.rootClasses := doc.rootClasses + {"dark"};
    }
  }

  /** Whether a page load comes up dark: a fresh root element, then the
      script. */
  predicate DarkAfterLoad(storage: map<string, string>)
  {
    "dark" in StartupClasses(GetItem(storage, ThemeKey), {})
  }

  /** Which stored values make a load come up dark: none at all, the empty
      string and `theme-dark`; any other value, `dark` and `light`
      included, leaves the page light. */
  lemma DarkAfterLoadIff(storage: map<string, string>)
    ensures DarkAfterLoad(storage) <==>
      ThemeKey !in storage || storage[ThemeKey] == "" || storage[ThemeKey] == "theme-dark"
  {
  }
}
