/** The theme controller: the body's light-theme class and the theme-toggle
    checkbox mirror one preference kept under a fixed key of local storage. */
module Theme {
  import opened Common

  const ThemeKey := "theme"
  const Light := "light"
  const Dark := "dark"

  /** getItem: the stored value, or None (null) when the key is absent. */
  function Lookup(storage: map<string, string>, key: string): Option<string> {
    if key in storage then Some(storage[key]) else None
  }

  /** setItem then getItem of the same key gives the value written. */
  lemma LookupAfterWrite(storage: map<string, string>, key: string, value: string)
    ensures Lookup(storage[key := value], key) == Some(value)
  {
  }

  /** setItem leaves every other key as it was. */
  lemma LookupOtherKey(storage: map<string, string>, key: string, other: string, value: string)
    requires other != key
    ensures Lookup(storage[key := value], other) == Lookup(storage, other)
  {
  }

  /** Only the exact stored value "light" selects the light theme; any other
      value, or none, leaves the dark default. */
  predicate IsLightPreference(saved: Option<string>) {
    saved == Some(Light)
  }

  /** The value written when the checkbox changes to `light`. */
  function Encode(light: bool): (v: string)
    ensures IsLightPreference(Some(v)) == light
    ensures v == Light || v == Dark
  {
    if light then Light else Dark
  }

  /** Reading back a successful write gives the theme that was written. */
  lemma ReloadAfterWrite(storage: map<string, string>, light: bool)
    ensures IsLightPreference(Lookup(storage[ThemeKey := Encode(light)], ThemeKey)) == light
  {
  }

  /** Dark is the default: with no stored value there is no light theme. */
  lemma DarkByDefault(storage: map<string, string>)
    requires ThemeKey !in storage
    ensures !IsLightPreference(Lookup(storage, ThemeKey))
  {
  }

  /** The page's theme state: the body class, the checkbox (None when the page
      has no theme-toggle element) and local storage. */
  class ThemeController {
    var lightTheme: bool
    var toggleChecked: Option<bool>
    var storage: map<string, string>

    /** Initialisation: read the stored preference once and reflect it. */
    constructor Init(stored: map<string, string>, hasToggle: bool)
      ensures storage == stored
      ensures lightTheme == IsLightPreference(Lookup(stored, ThemeKey))
      ensures toggleChecked == if hasToggle then Some(lightTheme) else None
    {
      storage := stored;
      var saved := Lookup(stored, ThemeKey);
      if saved == Some(Light) {
        lightTheme := true;
        toggleChecked := if hasToggle then Some(true) else None;
      } else {
        lightTheme := false;
        toggleChecked := if hasToggle then Some(false) else None;
      }
    }

    /** The change handler, attached only when the checkbox exists: the user has
        set the checkbox to `checked`; `writeFails` stands for a setItem that
        throws, which is caught and ignored. */
    method OnChange(checked: bool, writeFails: bool)
      requires toggleChecked.Some?
      modifies this
      ensures toggleChecked == Some(checked)
      ensures lightTheme == checked
      ensures storage == if writeFails then old(storage) else old(storage)[ThemeKey := Encode(checked)]
    {
      toggleChecked := Some(checked);
      lightTheme := checked;
      if !writeFails {
        storage := storage[ThemeKey := Encode(checked)];
      }
    }
  }
}
