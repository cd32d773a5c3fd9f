/**
 * The light/dark theme store (src/components/react/utils/useTheme.ts).
 *
 * The persisted preference is one entry of the browser's key-value storage,
 * modelled as a map from keys to strings. The OS colour-scheme query and the
 * presence of a `window` object are parameters. The document root's class
 * list is a set of class names; the 450 ms timer that removes the
 * `transitioning` class is a counter of pending removals fired by an explicit
 * call.
 */
module Theme {
  import opened Wrappers

  datatype Theme = Dark | Light

  const STORAGE_KEY: string := "portfolio-theme"
  const LIGHT_CLASS: string := "light"
  const TRANSITIONING_CLASS: string := "transitioning"

  /** The literal string under which a theme is stored. */
  function Name(t: Theme): string {
    match t
    case Dark => "dark"
    case Light => "light"
  }

  /** Reads a stored string back; anything but the two literals is invalid. */
  function Parse(s: string): (r: Option<Theme>)
    ensures r.Some? <==> s == "dark" || s == "light"
    ensures r.Some? ==> Name(r.value) == s
  {
    if s == "light" then Some(Light)
    else if s == "dark" then Some(Dark)
    else None
  }

  /** Storing a theme and reading it back gives the same theme. */
  lemma ParseName(t: Theme)
    ensures Parse(Name(t)) == Some(t)
  {
  }

  /** The stored preference, if a valid one is present. */
  function Stored(storage: map<string, string>): (r: Option<Theme>)
    ensures r.Some? <==> STORAGE_KEY in storage && (storage[STORAGE_KEY] == "dark" || storage[STORAGE_KEY] == "light")
    ensures r.Some? ==> storage[STORAGE_KEY] == Name(r.value)
  {
    if STORAGE_KEY in storage then Parse(storage[STORAGE_KEY]) else None
  }

  /**
   * `getInitialTheme`: dark without a window; otherwise a valid stored value
   * wins, then the OS light preference, then dark.
   */
  function InitialTheme(hasWindow: bool, storage: map<string, string>, prefersLight: bool): (t: Theme)
    ensures !hasWindow ==> t == Dark
    ensures hasWindow && Stored(storage).Some? ==> t == Stored(storage).value
    ensures hasWindow && Stored(storage).None? ==> (t == Light <==> prefersLight)
  {
    if !hasWindow then Dark
    else match Stored(storage)
      case Some(stored) => stored
      case None => if prefersLight then Light else Dark
  }

  /** A valid stored value is returned whatever the OS preference says. */
  lemma StoredWinsOverPreference(storage: map<string, string>, t: Theme)
    requires STORAGE_KEY in storage && storage[STORAGE_KEY] == Name(t)
    ensures InitialTheme(true, storage, true) == t
    ensures InitialTheme(true, storage, false) == t
  {
    ParseName(t);
  }

  /** The other theme. */
  function Toggled(t: Theme): (r: Theme)
    ensures r != t
  {
    match t
    case Dark => Light
    case Light => Dark
  }

  /** Toggling twice is the identity. */
  lemma ToggleInvolutive(t: Theme)
    ensures Toggled(Toggled(t)) == t
  {
  }

  /** The theme after `n` toggles. */
  function ToggledTimes(t: Theme, n: nat): Theme {
    if n == 0 then t else Toggled(ToggledTimes(t, n - 1))
  }

  /** After `n` toggles the theme is the initial one exactly when `n` is even. */
  lemma {:induction false} ToggleParity(t: Theme, n: nat)
    ensures ToggledTimes(t, n) == if n % 2 == 0 then t else Toggled(t)
  {
    if n > 0 {
      ToggleParity(t, n - 1);
    }
  }

  /**
   * `applyTheme`'s effect on the root's class list: `transitioning` is
   * added, `light` is present exactly for the light theme, and no other
   * class is touched.
   */
  function AppliedClasses(classes: set<string>, t: Theme): (r: set<string>)
    ensures TRANSITIONING_CLASS in r
    ensures LIGHT_CLASS in r <==> t == Light
    ensures forall c :: c != LIGHT_CLASS && c != TRANSITIONING_CLASS ==> (c in r <==> c in classes)
  {
    var withMarker := classes + {TRANSITIONING_CLASS};
    if t == Light then withMarker + {LIGHT_CLASS} else withMarker - {LIGHT_CLASS}
  }

  /** The hook's state, the storage it writes and the root element it styles. */
  class ThemeStore {
    var theme: Theme
    var storage: map<string, string>
    var rootClasses: set<string>
    var pendingMarkerRemovals: nat

    /** The state before hydration: dark, whatever is stored. */
    constructor (storage: map<string, string>, rootClasses: set<string>)
      ensures theme == Dark && this.storage == storage && this.rootClasses == rootClasses
      ensures pendingMarkerRemovals == 0
    {
      this.theme := Dark;
      this.storage := storage;
      this.rootClasses := rootClasses;
      this.pendingMarkerRemovals := 0;
    }

    /** `applyTheme`: style the root and schedule the marker's removal. */
    method ApplyTheme(t: Theme)
      modifies this
      ensures rootClasses == AppliedClasses(old(rootClasses), t)
      ensures pendingMarkerRemovals == old(pendingMarkerRemovals) + 1
      ensures theme == old(theme) && storage == old(storage)
    {
      rootClasses := rootClasses + {TRANSITIONING_CLASS};
      if t == Light {
        rootClasses := rootClasses + {LIGHT_CLASS};
      } else {
        rootClasses := rootClasses - {LIGHT_CLASS};
      }
      pendingMarkerRemovals := pendingMarkerRemovals + 1;
    }

    /** The mount effect, run in the browser: resolve the initial theme and apply it. */
    method Hydrate(prefersLight: bool)
      modifies this
      ensures theme == InitialTheme(true, old(storage), prefersLight)
      ensures storage == old(storage)
      ensures rootClasses == AppliedClasses(old(rootClasses), theme)
      ensures LIGHT_CLASS in rootClasses <==> theme == Light
      ensures pendingMarkerRemovals == old(pendingMarkerRemovals) + 1
    {
      var initial := InitialTheme(true, storage, prefersLight);
      theme := initial;
      ApplyTheme(initial);
    }

    /** `toggleTheme`: flip, persist, apply. */
    method ToggleTheme()
      modifies this
      ensures theme == Toggled(old(theme))
      ensures storage == old(storage)[STORAGE_KEY := Name(theme)]
      ensures rootClasses == AppliedClasses(old(rootClasses), theme)
      ensures LIGHT_CLASS in rootClasses <==> theme == Light
      ensures pendingMarkerRemovals == old(pendingMarkerRemovals) + 1
      // a reload now resolves to the current theme, whatever the OS preference
      ensures forall prefersLight :: InitialTheme(true, storage, prefersLight) == theme
    {
      var next := Toggled(theme);
      storage := storage[STORAGE_KEY := Name(next)];
      ApplyTheme(next);
      theme := next;
      ParseName(next);
    }

    /** One of the 450 ms timers fires and removes the marker class. */
    method MarkerTimerFires()
      requires pendingMarkerRemovals > 0
      modifies this
      ensures rootClasses == old(rootClasses) - {TRANSITIONING_CLASS}
      ensures pendingMarkerRemovals == old(pendingMarkerRemovals) - 1
      ensures theme == old(theme) && storage == old(storage)
    {
      rootClasses := rootClasses - {TRANSITIONING_CLASS};
      pendingMarkerRemovals := pendingMarkerRemovals - 1;
    }
  }

  /**
   * Two quick toggles schedule two removals; the first to fire already
   * clears the marker while the second toggle's transition is still
   * running, so the marker does not last 450 ms after the last toggle.
   */
  method OverlappingToggles(storage: map<string, string>) returns (marked: bool, pending: nat)
    ensures !marked && pending == 1
  {
    var store := new ThemeStore(storage, {});
    store.ToggleTheme();
    store.ToggleTheme();
    store.MarkerTimerFires();
    marked := TRANSITIONING_CLASS in store.rootClasses;
    pending := store.pendingMarkerRemovals;
  }
}
