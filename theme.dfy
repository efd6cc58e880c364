/** The colour scheme switch of page/theme.ts: the panel carries the class
    `light` or `dark`, chosen by the host or, while the page follows the system,
    by the `prefers-color-scheme: dark` media query. */
module Theme {

  /** The `light` and `dark` entries of the panel's class list. */
  class PanelClasses {
    var light: bool
    var dark: bool

    /** The panel as the page starts: neither class. */
    constructor ()
      ensures !light && !dark
    {
      light := false;
      dark := false;
    }
  }

  /** The host's choice passed to `setTheme`. */
  const FOLLOW_SYSTEM: int := 0
  const LIGHT: int := 1
  const DARK: int := 2

  /** The module state: the last answer of the media query and whether the
      page follows it. */
  class ThemeState {
    var isSystemDark: bool
    var followSystemTheme: bool
    const panel: PanelClasses

    /** Exactly one of the two classes is on. */
    predicate OneClass()
      reads panel
    {
      panel.light != panel.dark
    }

    /** While the page follows the system, the class is the system's. */
    predicate Tracking()
      reads this, panel
    {
      followSystemTheme ==> panel.dark == isSystemDark && panel.light == !isSystemDark
    }

    /** The state after the module is loaded: following the system, whose
        scheme the media query reports as `systemDark`. No class is set yet. */
    constructor (panel: PanelClasses, systemDark: bool)
      ensures this.panel == panel && isSystemDark == systemDark && followSystemTheme
    {
      this.panel := panel;
      isSystemDark := systemDark;
      followSystemTheme := true;
    }

    /** `setLightTheme` */
    method SetLightTheme()
      modifies panel
      ensures panel.light && !panel.dark
    {
      panel.dark := false;
      panel.light := true;
    }

    /** `setDarkTheme` */
    method SetDarkTheme()
      modifies panel
      ensures panel.dark && !panel.light
    {
      panel.light := false;
      panel.dark := true;
    }

    /** `systemThemeHandler`: the class of the system's scheme. */
    method SystemThemeHandler()
      modifies panel
      ensures panel.dark == isSystemDark && panel.light == !isSystemDark
    {
      if isSystemDark {
        SetDarkTheme();
      } else {
        SetLightTheme();
      }
    }

    /** The listener of the media query's `change` event: the system's scheme
        is always recorded, and the classes follow it only while the page
        follows the system. */
    method OnSystemChange(matches: bool)
      modifies this`isSystemDark, panel
      ensures isSystemDark == matches && followSystemTheme == old(followSystemTheme)
      ensures followSystemTheme ==> panel.dark == matches && panel.light == !matches
      ensures !followSystemTheme ==> panel.light == old(panel.light) && panel.dark == old(panel.dark)
      ensures old(OneClass()) ==> OneClass()
      ensures Tracking()
    {
      isSystemDark := matches;
      if followSystemTheme {
        SystemThemeHandler();
      }
    }

    /** `setTheme`: 0 follows the system again and applies its scheme, 1 and 2
        fix the light and the dark scheme. Any other value falls through the
        `switch` and changes nothing. */
    method SetTheme(theme: int)
      modifies this`followSystemTheme, panel
      ensures isSystemDark == old(isSystemDark)
      ensures theme == FOLLOW_SYSTEM ==> followSystemTheme && panel.dark == isSystemDark && panel.light == !isSystemDark
      ensures theme == LIGHT ==> !followSystemTheme && panel.light && !panel.dark
      ensures theme == DARK ==> !followSystemTheme && panel.dark && !panel.light
      ensures theme in {FOLLOW_SYSTEM, LIGHT, DARK} ==> OneClass() && Tracking()
      ensures theme !in {FOLLOW_SYSTEM, LIGHT, DARK} ==>
        followSystemTheme == old(followSystemTheme) && panel.light == old(panel.light) && panel.dark == old(panel.dark)
    {
      if theme == FOLLOW_SYSTEM {
        followSystemTheme := true;
        SystemThemeHandler();
      } else if theme == LIGHT {
        followSystemTheme := false;
        SetLightTheme();
      } else if theme == DARK {
        followSystemTheme := false;
        SetDarkTheme();
      }
    }
  }
}
