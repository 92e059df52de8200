/**
 * The colour themes (components/theme-manager.js): the table of three themes,
 * applying one to the document, and restoring the stored one on load.
 */
module ThemeManager {
  import opened Wrappers

  const ActiveClass := "active"
  const StorageKey := "theme"
  const DefaultTheme := "dark"

  /** A CSS custom property and its value. */
  datatype CssProperty = CssProperty(name: string, value: string)

  const PropertyNames: seq<string> := ["--sidebar-color", "--button-color", "--overlay-background", "--hover-overlay"]

  /** Builds a theme from its two colours; the two overlay values are shared by all themes. */
  function Theme(sidebar: string, button: string): seq<CssProperty>
  {
    [ CssProperty("--sidebar-color", sidebar), CssProperty("--button-color", button),
      CssProperty("--overlay-background", "rgba(0, 0, 0, 0.5)"),
      CssProperty("--hover-overlay", "rgba(255, 255, 255, 0.1)") ]
  }

  /** `themes[themeName]`: the properties of the named theme, in declaration order, or `None` for an unknown name. */
  function ThemeTable(themeName: string): Option<seq<CssProperty>>
  {
    match ThemeColors(themeName)
    case Some((sidebar, button)) => Some(Theme(sidebar, button))
    case None => None
  }

  /** The sidebar and button colours of each theme. */
  function ThemeColors(themeName: string): Option<(string, string)>
  {
    if themeName == "dark" then Some(("#000000", "#333333"))
    else if themeName == "grey" then Some(("#333333", "#000000"))
    else if themeName == "fancy" then Some(("#1a73e8", "#e91e63"))
    else None
  }

  function Names(props: seq<CssProperty>): (r: seq<string>)
    ensures |r| == |props| && forall i :: 0 <= i < |props| ==> r[i] == props[i].name
  {
    seq(|props|, i requires 0 <= i < |props| => props[i].name)
  }

  /** Every theme sets the same four properties, in the same order. */
  lemma ThemesShareKeys(themeName: string)
    ensures ThemeTable(themeName).Some? ==> Names(ThemeTable(themeName).value) == PropertyNames
  {
    if ThemeColors(themeName).Some? {
      var (sidebar, button) := ThemeColors(themeName).value;
      ThemeShape(sidebar, button);
    }
  }

  /** The known theme names are exactly dark, grey and fancy. */
  lemma KnownThemes(themeName: string)
    ensures ThemeTable(themeName).Some? <==> themeName in ["dark", "grey", "fancy"]
  {
  }

  lemma ThemeShape(sidebar: string, button: string)
    ensures Names(Theme(sidebar, button)) == PropertyNames
  {
  }

  /** A `.theme-option` element: its `data-theme`, if any, and its class list. */
  datatype ThemeOption = ThemeOption(dataTheme: Option<string>, classes: set<string>)

  /** What applying a theme can touch: the root element's style, the theme options and local storage. */
  datatype DocState = DocState(style: map<string, string>, options: seq<ThemeOption>, storage: map<string, string>)

  /** No two properties share a name. */
  ghost predicate DistinctNames(props: seq<CssProperty>)
  {
    forall i, j :: 0 <= i < j < |props| ==> props[i].name != props[j].name
  }

  /** Every theme names its properties once. */
  lemma ThemesDistinct(themeName: string)
    ensures ThemeTable(themeName).Some? ==> DistinctNames(ThemeTable(themeName).value)
  {
    if ThemeColors(themeName).Some? {
      var (sidebar, button) := ThemeColors(themeName).value;
      ThemeShape(sidebar, button);
      var names := PropertyNames;
      assert |names[0]| == 15 && |names[1]| == 14 && |names[2]| == 20 && |names[3]| == 15;
      assert names[0][2] == 's' && names[3][2] == 'h';
    }
  }

  /** `style.setProperty` for each property in order. */
  function SetProperties(style: map<string, string>, props: seq<CssProperty>): (r: map<string, string>)
    ensures forall k :: k in r <==> k in style || k in Names(props)
    ensures forall k :: k in style && k !in Names(props) ==> r[k] == style[k]
    ensures DistinctNames(props) ==> forall i :: 0 <= i < |props| ==> props[i].name in r && r[props[i].name] == props[i].value
    decreases |props|
  {
    if props == [] then style
    else
      var init := props[..|props| - 1];
      var last := props[|props| - 1];
      assert props == init + [last];
      assert Names(props) == Names(init) + [last.name];
      assert forall i :: 0 <= i < |init| ==> init[i] == props[i];
      SetProperties(style, init)[last.name := last.value]
  }

  /** One step of a loop over `props`: the prefix grows by `props[i]`. */
  lemma SetPropertiesStep(style: map<string, string>, props: seq<CssProperty>, i: nat)
    requires i < |props|
    ensures SetProperties(style, props[..i + 1]) == SetProperties(style, props[..i])[props[i].name := props[i].value]
  {
    assert props[..i + 1][..i] == props[..i];
  }

  /** Setting the same distinctly named properties twice is setting them once. */
  lemma SetPropertiesIdempotent(style: map<string, string>, props: seq<CssProperty>)
    requires DistinctNames(props)
    ensures SetProperties(SetProperties(style, props), props) == SetProperties(style, props)
  {
    var once := SetProperties(style, props);
    var twice := SetProperties(once, props);
    forall k | k in twice
      ensures k in once && twice[k] == once[k]
    {
      if k in Names(props) {
        var i :| 0 <= i < |props| && Names(props)[i] == k;
      }
    }
  }

  /** `option.classList.toggle('active', option.dataset.theme === themeName)`. */
  function Toggle(option: ThemeOption, themeName: string): (r: ThemeOption)
    ensures r.dataTheme == option.dataTheme
    ensures r.classes - {ActiveClass} == option.classes - {ActiveClass}
    ensures ActiveClass in r.classes <==> option.dataTheme == Some(themeName)
  {
    if option.dataTheme == Some(themeName) then option.(classes := option.classes + {ActiveClass})
    else option.(classes := option.classes - {ActiveClass})
  }

  function ToggleAll(options: seq<ThemeOption>, themeName: string): (r: seq<ThemeOption>)
    ensures |r| == |options| && forall i :: 0 <= i < |options| ==> r[i] == Toggle(options[i], themeName)
  {
    seq(|options|, i requires 0 <= i < |options| => Toggle(options[i], themeName))
  }

  /** The document after `applyTheme(themeName)`: unknown names change nothing. */
  function Applied(st: DocState, themeName: string): (r: DocState)
    ensures ThemeTable(themeName).None? ==> r == st
    ensures ThemeTable(themeName).Some? ==> r.storage == st.storage[StorageKey := themeName]
  {
    match ThemeTable(themeName)
    case Some(theme) => ApplyWith(st, theme, themeName)
    case None => st
  }

  /** The three effects of applying `theme` under the name `themeName`. */
  function ApplyWith(st: DocState, theme: seq<CssProperty>, themeName: string): (r: DocState)
    ensures r.storage == st.storage[StorageKey := themeName]
  {
    DocState(SetProperties(st.style, theme), ToggleAll(st.options, themeName), st.storage[StorageKey := themeName])
  }

  lemma ApplyWithFacts(st: DocState, theme: seq<CssProperty>, themeName: string)
    requires Names(theme) == PropertyNames && DistinctNames(theme)
    ensures var r := ApplyWith(st, theme, themeName);
      && (forall i :: 0 <= i < 4 ==> PropertyNames[i] in r.style && r.style[PropertyNames[i]] == theme[i].value)
      && (forall k :: k in r.style <==> k in st.style || k in PropertyNames)
      && (forall k :: k in st.style && k !in PropertyNames ==> r.style[k] == st.style[k])
      && |r.options| == |st.options|
      && (forall i :: 0 <= i < |r.options| ==>
            r.options[i].dataTheme == st.options[i].dataTheme &&
            r.options[i].classes - {ActiveClass} == st.options[i].classes - {ActiveClass} &&
            (ActiveClass in r.options[i].classes <==> st.options[i].dataTheme == Some(themeName)))
  {
    assert forall i :: 0 <= i < 4 ==> theme[i].name == PropertyNames[i];
  }

  /**
   * Applying a known theme sets each of its properties to its table value and
   * touches no other property, marks exactly the options for that theme
   * active without touching their other classes, and stores the name.
   */
  lemma AppliedKnown(st: DocState, themeName: string, theme: seq<CssProperty>)
    requires ThemeTable(themeName) == Some(theme)
    ensures var r := Applied(st, themeName);
      && |theme| == 4
      && (forall i :: 0 <= i < 4 ==> PropertyNames[i] in r.style && r.style[PropertyNames[i]] == theme[i].value)
      && (forall k :: k in r.style <==> k in st.style || k in PropertyNames)
      && (forall k :: k in st.style && k !in PropertyNames ==> r.style[k] == st.style[k])
      && |r.options| == |st.options|
      && (forall i :: 0 <= i < |r.options| ==>
            r.options[i].dataTheme == st.options[i].dataTheme &&
            r.options[i].classes - {ActiveClass} == st.options[i].classes - {ActiveClass} &&
            (ActiveClass in r.options[i].classes <==> st.options[i].dataTheme == Some(themeName)))
      && r.storage == st.storage[StorageKey := themeName]
  {
    assert Applied(st, themeName) == ApplyWith(st, theme, themeName);
    ThemesShareKeys(themeName);
    ThemesDistinct(themeName);
    ApplyWithFacts(st, theme, themeName);
  }

  lemma ToggleAllIdempotent(options: seq<ThemeOption>, themeName: string)
    ensures ToggleAll(ToggleAll(options, themeName), themeName) == ToggleAll(options, themeName)
  {
  }

  /** Applying the same theme twice is applying it once. */
  lemma AppliedIdempotent(st: DocState, themeName: string)
    ensures Applied(Applied(st, themeName), themeName) == Applied(st, themeName)
  {
    if ThemeTable(themeName).Some? {
      var theme := ThemeTable(themeName).value;
      ThemesDistinct(themeName);
      SetPropertiesIdempotent(st.style, theme);
      ToggleAllIdempotent(st.options, themeName);
    }
  }

  /** `localStorage.getItem('theme') || 'dark'`. */
  function StoredTheme(storage: map<string, string>): (r: string)
    ensures StorageKey in storage && storage[StorageKey] != "" ==> r == storage[StorageKey]
    ensures StorageKey !in storage || storage[StorageKey] == "" ==> r == DefaultTheme
  {
    if StorageKey in storage && storage[StorageKey] != "" then storage[StorageKey] else DefaultTheme
  }

  /** After a known theme is applied, loading the page restores that theme and changes nothing more. */
  lemma ReloadKeepsTheme(st: DocState, themeName: string)
    requires ThemeTable(themeName).Some?
    ensures StoredTheme(Applied(st, themeName).storage) == themeName
    ensures Applied(Applied(st, themeName), StoredTheme(Applied(st, themeName).storage)) == Applied(st, themeName)
  {
    assert themeName != "";
    AppliedIdempotent(st, themeName);
  }

  /** The document root's style, the theme options and local storage, updated in place. */
  class Document {
    var style: map<string, string>
    var options: seq<ThemeOption>
    var storage: map<string, string>

    function State(): DocState
      reads this
    {
      DocState(style, options, storage)
    }

    constructor (style: map<string, string>, options: seq<ThemeOption>, storage: map<string, string>)
      ensures State() == DocState(style, options, storage)
    {
      this.style := style;
      this.options := options;
      this.storage := storage;
    }

    /** `Object.entries(theme).forEach(... style.setProperty(property, value))`. */
    method SetAll(props: seq<CssProperty>)
      modifies this
      ensures style == SetProperties(old(style), props)
      ensures options == old(options) && storage == old(storage)
    {
      for i := 0 to |props|
        invariant style == SetProperties(old(style), props[..i])
        invariant options == old(options) && storage == old(storage)
      {
        SetPropertiesStep(old(style), props, i);
        style := style[props[i].name := props[i].value];
      }
      assert props[..|props|] == props;
    }

    /** The `forEach` over the theme options. */
    method ToggleOptions(themeName: string)
      modifies this
      ensures options == ToggleAll(old(options), themeName)
      ensures style == old(style) && storage == old(storage)
    {
      for i := 0 to |options|
        invariant |options| == |old(options)| && style == old(style) && storage == old(storage)
        invariant forall k :: 0 <= k < i ==> options[k] == Toggle(old(options)[k], themeName)
        invariant forall k :: i <= k < |options| ==> options[k] == old(options)[k]
      {
        options := options[i := Toggle(options[i], themeName)];
      }
    }

    /** `applyTheme(themeName)`. */
    method ApplyTheme(themeName: string)
      modifies this
      ensures State() == Applied(old(State()), themeName)
    {
      var theme := ThemeTable(themeName);
      if theme.None? {
        return;
      }
      SetAll(theme.value);
      ToggleOptions(themeName);
      storage := storage[StorageKey := themeName];
    }

    /** `loadTheme()`. */
    method LoadTheme()
      modifies this
      ensures State() == Applied(old(State()), StoredTheme(old(storage)))
    {
      var currentTheme := StoredTheme(storage);
      ApplyTheme(currentTheme);
    }
  }
}
