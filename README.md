# Portfolio interaction rules in Dafny

This project models the small state machines inside the React hooks of the
portfolio site and proves what they do:

- the Konami-code easter egg of the footer (`useKonamiCode`);
- the rotating job-title typewriter of the hero section;
- the light/dark theme store (`useTheme`);
- the digit keyboard shortcuts, the error boundary and the page `mounted`
  flag of the root `App`;
- the active-section tracking, menu, scroll and hover state of the top
  navigation bar and of the side dot navigation.

Each hook is a `class` whose fields are its `useState` variables. Browser
events are method calls: a key press, an observer batch, a scroll, a click, a
render fault. A timer firing is an explicit step call. Each method is proved
against a pure function of the old state, such as `Konami.Step`,
`Typewriter.Next`, `Theme.AppliedClasses` or `SectionTracking.AfterBatch`.
The properties the site relies on are lemmas about those functions.

Files, one module per source file:

| file | module | source |
|---|---|---|
| wrappers.dfy | `Wrappers` | `Option` |
| konami.dfy | `Konami` | src/components/react/Footer.tsx |
| typewriter.dfy | `Typewriter` | src/components/react/Hero.tsx |
| theme.dfy | `Theme` | src/components/react/utils/useTheme.ts |
| app.dfy | `App` | src/components/react/App.tsx |
| section_tracking.dfy | `SectionTracking` | the observer callback shared by Navbar.tsx and DotNav.tsx |
| navbar.dfy | `Navbar` | src/components/react/Navbar.tsx |
| dotnav.dfy | `DotNav` | src/components/react/DotNav.tsx |
| page.dfy | `Page` | the composition in src/components/react/App.tsx of the page body with both navigations |

Modelling choices:

- `localStorage` is a `map<string, string>`.
- The `prefers-color-scheme: light` query and the presence of `window` are
  parameters.
- The root element's class list is a `set<string>`.
- `scrollToSection(id)` is recorded by appending `id` to a `scrollRequests`
  sequence.
- `scrollY` and `innerHeight` are `real`.
- The elements that exist on the page are a parameter `present` of the
  constructors. In the page App.tsx builds, both navigations mount before the
  first animation frame renders the sections, so `present` holds no section
  and nothing is observed; `Page.MountBeforeFrame` shows this, and it is
  listed under "## Findings".

## Model

| member | source | states |
|---|---|---|
| Konami.Step | src/components/react/Footer.tsx:23-39 | Once activated, a key changes nothing. Activation is never undone. The expected key at position `index` with `index + 1 < 10` advances by exactly one and leaves the code inactive. Any other key resets to position 0 without re-testing it against the first key. The expected key at position 9 activates and resets the index to 0, and activation happens on no other key or position. The index stays below 10. |
| Konami.PrefixAdvances | src/components/react/Footer.tsx:26-33 | Feeding the first `k < 10` keys of the code from the start reaches position `k`, still inactive. |
| Konami.FullSequenceActivates | src/components/react/Footer.tsx:6-17 | From index 0 and inactive, feeding exactly the ten keys activates the code and puts the index back to 0. |
| Konami.ActivatedIsFinal | src/components/react/Footer.tsx:25 | After activation, no sequence of keys changes either the index or the flag. |
| Konami.RunStaysInRange | src/components/react/Footer.tsx:21-36 | From a valid start, the index stays in 0..9 whatever keys are fed. |
| Konami.MatchedPrefixIsSuffix | src/components/react/Footer.tsx:26-36 | While inactive, the last `index` keys fed are exactly the first `index` keys of the code. |
| Konami.ActivationNeedsContiguousCode | src/components/react/Footer.tsx:26-30 | If the code is activated, the ten keys occurred consecutively somewhere in the input. |
| Konami.StutteredStartDoesNotActivate | src/components/react/Footer.tsx:34-36 | Three "ArrowUp" followed by the rest of the code contains the whole code, but ends at index 0 and inactive. |
| Konami.StaysResetOnNonUp | src/components/react/Footer.tsx:34-36 | From a reset position, keys other than "ArrowUp" keep the index at 0 and the code inactive. |
| Konami.KonamiCode.constructor | src/components/react/Footer.tsx:20-21 | The hook starts at index 0 and inactive. |
| Konami.KonamiCode.HandleKey | src/components/react/Footer.tsx:23-39 | The new state is `Step` of the old state and the key. The index stays in range. |
| Typewriter.Next | src/components/react/Hero.tsx:22-41 | Under the prefix invariant, exactly one branch applies, and its successor keeps the invariant. Typing appends the role's next character after 60 ms. A full word turns to deleting after 2000 ms, with the text unchanged. Deleting removes exactly the last character after 35 ms. An empty text while deleting moves at once to role `(i + 1) % length` and to typing. The machine stops (no update and no timer) exactly when more text is shown than the role has, which the prefix invariant rules out. |
| Typewriter.Run | src/components/react/Hero.tsx:22-41 | Any number of steps from a well-formed state keeps the role index in range and the text a prefix of its role. |
| Typewriter.RunAdds | src/components/react/Hero.tsx:22-41 | Running `a` steps and then `b` steps reaches the same state, with the summed delay, as running `a + b` steps. |
| Typewriter.TypesOut | src/components/react/Hero.tsx:26-30 | From a typed prefix of length `k`, the rest of the role is typed in `length - k` steps of 60 ms. |
| Typewriter.PausesWhenFull | src/components/react/Hero.tsx:31-32 | With the whole role shown, one step waits 2000 ms and turns to deleting. |
| Typewriter.ErasesAll | src/components/react/Hero.tsx:33-34 | While deleting, a prefix of length `k` is erased in `k` steps of 35 ms. |
| Typewriter.TypesAndPauses | src/components/react/Hero.tsx:26-32 | From an empty text, role `i` is typed out in `n` steps of 60 ms, then the full word turns to deleting after 2000 ms. |
| Typewriter.TypesPausesAndErases | src/components/react/Hero.tsx:26-34 | Typing, pausing and erasing role `i` takes `2n + 1` steps and ends on an empty text, still deleting, after `60n + 2000 + 35n` ms. |
| Typewriter.AdvancesWhenEmpty | src/components/react/Hero.tsx:35-37 | With an empty text while deleting, one step moves to the next role modulo the list length, with no delay. |
| Typewriter.FullCycle | src/components/react/Hero.tsx:22-41 | From an empty text for role `i`, `2n + 2` steps end on an empty text for role `(i + 1) % length`, where `n` is the role's length. The cycle takes 95 ms per character plus 2000 ms. |
| Typewriter.Typewriter.constructor | src/components/react/Hero.tsx:10-12 | The hook starts on role 0, with empty text, typing. |
| Typewriter.Typewriter.Step | src/components/react/Hero.tsx:22-41 | The new state and the returned delay are `Next` of the old state. The prefix invariant is kept. |
| Theme.Parse | src/components/react/utils/useTheme.ts:10 | A stored string is accepted exactly when it is "dark" or "light", and it reads back as the theme of that name. |
| Theme.ParseName | src/components/react/utils/useTheme.ts:10 | A theme's name reads back as that theme. |
| Theme.Stored | src/components/react/utils/useTheme.ts:9-10 | A stored preference is found exactly when the storage key holds "dark" or "light", and then it is the theme of that name. |
| Theme.InitialTheme | src/components/react/utils/useTheme.ts:7-15 | With no window, the result is dark. A valid stored value wins. Otherwise the result is light exactly when the OS prefers light. |
| Theme.StoredWinsOverPreference | src/components/react/utils/useTheme.ts:9-10 | A stored "light" or "dark" is returned whatever the OS preference. |
| Theme.Toggled | src/components/react/utils/useTheme.ts:42 | The toggled theme differs from the old one. |
| Theme.ToggleInvolutive | src/components/react/utils/useTheme.ts:42 | Toggling twice is the identity. |
| Theme.ToggleParity | src/components/react/utils/useTheme.ts:40-47 | After `n` toggles, the theme is the initial one exactly when `n` is even. |
| Theme.AppliedClasses | src/components/react/utils/useTheme.ts:27-38 | After applying theme `t`, the root has `transitioning`. It has `light` exactly when `t` is light. Every other class is untouched. |
| Theme.ThemeStore.constructor | src/components/react/utils/useTheme.ts:18 | Before hydration the theme is dark. Storage and the root's classes are as found. |
| Theme.ThemeStore.ApplyTheme | src/components/react/utils/useTheme.ts:27-38 | The root's classes become `AppliedClasses` of the old classes. One marker removal is scheduled. Theme and storage are unchanged. |
| Theme.ThemeStore.Hydrate | src/components/react/utils/useTheme.ts:21-25 | The theme becomes `InitialTheme` of the stored value and the OS preference, and is applied. Storage is not written. |
| Theme.ThemeStore.ToggleTheme | src/components/react/utils/useTheme.ts:40-47 | The theme flips. Storage under "portfolio-theme" holds the new theme's name, and nothing else in storage changes. The root is styled for the new theme. A later `getInitialTheme` yields the current theme, whatever the OS preference. |
| Theme.ThemeStore.MarkerTimerFires | src/components/react/utils/useTheme.ts:37 | A pending 450 ms timer removes `transitioning` and nothing else. |
| Theme.OverlappingToggles | src/components/react/utils/useTheme.ts:37 | After two quick toggles, the first timer to fire removes the marker while one removal is still pending. |
| App.LeadingSpaces | src/components/react/App.tsx:26 | The count of leading JavaScript white-space characters that `parseInt` skips. Every counted character is white space, and the next one is not. |
| App.LeadingDigits | src/components/react/App.tsx:26 | The length of the longest leading run of decimal digits that `parseInt` reads. |
| App.SignedDigits | src/components/react/App.tsx:26 | After the white space, `parseInt` is a number exactly when the text starts with a digit, or with a sign and then a digit. |
| App.ParseInt | src/components/react/App.tsx:26 | `parseInt(key, 10)` is a number, not NaN, exactly when some digit is preceded only by white space, optionally followed by one sign. |
| App.LeadingSpacesOfPrefix | src/components/react/App.tsx:26 | White space followed by any other character: exactly that white space is skipped. |
| App.LeadingDigitsOfPrefix | src/components/react/App.tsx:26 | Digits followed by a non-digit or by nothing: exactly those digits are read. |
| App.ParseIntSkipsSpaces | src/components/react/App.tsx:26 | Leading white space does not change the result: `parseInt` reads the signed digits after it. |
| App.DigitRunValue | src/components/react/App.tsx:26 | An unsigned maximal run of digits is read as its exact decimal value, and whatever follows it is ignored. |
| App.SignPrefix | src/components/react/App.tsx:26 | A minus before a digit negates the value read after it, and a plus keeps it. |
| App.ParseIntReads | src/components/react/App.tsx:26 | White space, then a maximal run of digits, then anything: the result is the run's exact decimal value. With `SignPrefix`, a sign in front negates the value (minus) or keeps it (plus). |
| App.HandleKey | src/components/react/App.tsx:19-31 | `preventDefault` is called exactly when a scroll is issued. A key in an input or a text area does nothing. Otherwise the listener jumps exactly when `parseInt` lies in 1..4, to `NAV_SECTIONS[n - 1]`, which is always one of the four sections. |
| App.ParseSingleChar | src/components/react/App.tsx:26 | A one-character key parses to its digit value, or to NaN when it is not a digit. |
| App.SingleKeyJumps | src/components/react/App.tsx:16-31 | A one-character key outside a text field jumps exactly for '1' to '4', to the section at that position. |
| App.DigitShortcuts | src/components/react/App.tsx:16-31 | 1 goes to home, 2 to about, 3 to projects and 4 to social. "0", "5" and "a" do nothing. A digit inside a text field does nothing. |
| App.ErrorBoundary.Rendered | src/components/react/App.tsx:67-86 | The fallback is rendered exactly while `hasError` holds, and the children exactly while it does not. |
| App.ErrorBoundary.constructor | src/components/react/App.tsx:57 | The boundary starts without an error and renders its children. |
| App.ErrorBoundary.CatchFault | src/components/react/App.tsx:59-61 | A descendant fault sets `hasError`, and the fallback is rendered instead of the children. |
| App.ErrorBoundary.Retry | src/components/react/App.tsx:76 | "Try again" clears `hasError`, and the children are rendered again. |
| App.PageMount.Components | src/components/react/App.tsx:118-152 | The scroll-progress bar, both navigations and the footer are rendered regardless of `mounted`. The four page sections Hero, About, Projects and Social are rendered, in that order, exactly when `mounted` holds. |
| App.PageMount.constructor | src/components/react/App.tsx:110-116 | `mounted` starts false with one animation frame requested, so no page section is rendered. |
| App.PageMount.AnimationFrame | src/components/react/App.tsx:112-116 | The requested frame sets `mounted`, after which the body is shown. A second frame changes nothing. |
| App.PageMount.Unmount | src/components/react/App.tsx:115 | Unmounting cancels a frame not yet fired. |
| SectionTracking.AfterBatch | src/components/react/Navbar.tsx:33-37 | After a batch, the active id is the id of the last intersecting entry. A batch with no intersecting entry leaves it unchanged. |
| SectionTracking.AfterBatchStaysIn | src/components/react/Navbar.tsx:31-43 | If every entry reports one of a set of ids and the current id is in that set, the id after the batch is in it too. |
| Navbar.Overflow | src/components/react/Navbar.tsx:24 | The body overflow is "hidden" exactly when the menu is open, and empty otherwise. |
| Navbar.CurrentLinks | src/components/react/Navbar.tsx:47-52 | The links carrying `aria-current` are exactly those whose id is the active one. That is exactly one link for each of the four sections, and none otherwise. |
| Navbar.Navbar.constructor | src/components/react/Navbar.tsx:13-45 | On mount the menu is closed, the bar is not scrolled and "home" is active. Exactly the section elements that exist are observed. |
| Navbar.Navbar.OnIntersect | src/components/react/Navbar.tsx:33-37 | The active id becomes `AfterBatch` of the entries and stays one of the four sections. Nothing else changes. |
| Navbar.Navbar.OnScroll | src/components/react/Navbar.tsx:18 | `scrolled` holds exactly when `scrollY > 50`. Nothing else changes. |
| Navbar.Navbar.ToggleMenu | src/components/react/Navbar.tsx:148 | The menu flag flips, and the body overflow is "hidden" exactly when the menu is open. |
| Navbar.Navbar.HandleNav | src/components/react/Navbar.tsx:54-57 | After the call the menu is closed, the overflow is reset and one 50 ms scroll to `id` is queued. Nothing is scrolled yet. |
| Navbar.Navbar.NavTimerFires | src/components/react/Navbar.tsx:56 | The oldest queued timer fires and requests its scroll. It can fire even after unmounting. |
| Navbar.Navbar.Unmount | src/components/react/Navbar.tsx:20-44 | The clean-ups reset the body overflow (lines 25-27) and disconnect the observer (line 44). The scroll listener removed at line 20 has no state in the model. |
| DotNav.DotIdsDistinct | src/components/react/DotNav.tsx:6-11 | No two dots share an id. |
| DotNav.DotIndex | src/components/react/DotNav.tsx:6-11 | A section id names a dot at a valid position. |
| DotNav.DotsWithId | src/components/react/DotNav.tsx:61-63 | The dots matching a key are exactly the dot with that id, or none when the key is no dot's id. |
| DotNav.IsVisible | src/components/react/DotNav.tsx:39-40 | At the top of the page the dots are hidden. In a viewport of no height, any downward scroll shows them. |
| DotNav.VisibilityIsMonotone | src/components/react/DotNav.tsx:39-40 | Visibility is a threshold on the scroll offset: scrolling further down never hides the dots, and scrolling back up never shows them. |
| DotNav.DotNav.constructor | src/components/react/DotNav.tsx:14-44 | On mount "home" is active and nothing is hovered. Visibility is evaluated once. Exactly the section elements that exist are observed. |
| DotNav.DotNav.OnIntersect | src/components/react/DotNav.tsx:21-25 | The active id becomes `AfterBatch` of the entries and stays one of the four ids. Nothing else changes. |
| DotNav.DotNav.OnScroll | src/components/react/DotNav.tsx:39-42 | `visible` holds exactly when `scrollY > 0.3 * innerHeight`. Nothing else changes. |
| DotNav.DotNav.MouseEnter | src/components/react/DotNav.tsx:85 | The hovered dot becomes `id`. |
| DotNav.DotNav.MouseLeave | src/components/react/DotNav.tsx:86 | Nothing is hovered. |
| DotNav.DotNav.Click | src/components/react/DotNav.tsx:46-48 | A scroll to `id` is requested and the active dot is not changed directly. |
| DotNav.DotNav.ActiveDots | src/components/react/DotNav.tsx:62 | Exactly one dot is marked active (`isActive`): the one whose id is `active`. The dots themselves are drawn only while `visible` holds (line 52). |
| DotNav.DotNav.TooltipDots | src/components/react/DotNav.tsx:63-69 | Exactly the hovered dot is marked for its tooltip (`isHovered`); tooltips are drawn only while `visible`, and `hovered` is kept while the dots are hidden. |
| Page.SectionIdsOf | src/components/react/App.tsx:127-150 | With none of Hero, About, Projects and Social rendered no section element exists; with all four rendered exactly the four section ids exist. |
| Page.MountBeforeFrame | src/components/react/Navbar.tsx:30-45 | As written: mounted before the first frame, neither navigation observes any section, an observer can deliver only the empty batch, and both active ids stay "home" whatever the batch. |
| Page.MountAfterFrame | src/components/react/DotNav.tsx:19-35 | As intended: with the body rendered, all four sections are observed, and after a batch of entries for those sections both navigations mark `AfterBatch` of it, one of the four sections. |

## Left out

- Timers as real time. The typewriter's 60, 35 and 2000 ms delays are returned by each step. The theme's 450 ms marker-removal timers are a counter of pending removals, and the navbar's 50 ms scroll timers are a queue of section ids. Both are fired by explicit calls, and their delays are not modelled. No clock is modelled. The overlap of the 450 ms `transitioning` removals across rapid toggles (src/components/react/utils/useTheme.ts:37) is exhibited by `Theme.OverlappingToggles` rather than corrected.
- Navbar.Navbar.NavTimerFires: the 50 ms `handleNav` timers are never cleared in the source, so the model lets them fire after unmounting and queues them in start order.
- IntersectionObserver geometry (`rootMargin`). Which entries a batch holds is an input. The only constraint is that entries report observed elements.
- `matchMedia` and the presence of `window` are parameters. `localStorage` is a map that never fails. The code has no `try`/`catch` around storage access, so a throwing storage is not modelled.
- `console.error` in `componentDidCatch` (src/components/react/App.tsx:63-65) is logging only.
- React semantics: re-rendering, effect scheduling, StrictMode double effects and stale closures. Each handler is modelled as acting on the current state.
- `scrollToSection` and smooth scrolling (src/components/react/utils/scroll.ts is not part of this model). A scroll is only recorded.
- Pixel values (`scrollY`, `innerHeight`) are exact reals rather than IEEE doubles.
- App.ParseInt: the result is the exact unbounded integer (likewise in `App.DigitRunValue` and `App.ParseIntReads`). JavaScript's `parseInt` returns the nearest IEEE double instead, so a digit run beyond 2^53 is rounded and "-0" gives negative zero. This does not change the 1..4 test of the keyboard shortcuts, because 1 to 4 are exact doubles and rounding is monotone.
- Typewriter: the lemmas take the role list as a parameter, so they cover any list of text within the Basic Multilingual Plane. A Dafny string counts code points while JavaScript's `length` and `slice` count UTF-16 code units, so for characters outside that plane the step counts would differ. The site's three roles are ASCII; they are the constant `Roles` used by the class.
- Animation, layout and static content are not modelled: motion variants, the scroll-progress bar, Projects, About, Social, Stats, Doodles, BackToTop, constants and the app layout.

## Findings

| source | as written | input that shows it | evidently intended | confidence | as-written member | corrected member |
|---|---|---|---|---|---|---|
| src/components/react/Navbar.tsx:30-45 | The observer effects of Navbar and of DotNav (src/components/react/DotNav.tsx:19-35) run once, on mount, and look up the section elements then; the sections are rendered only under `mounted`, which the first animation frame sets after those effects have run (src/components/react/App.tsx:112-127) | the initial page load: `mounted` is false while both effects run, so `getElementById` finds no section, nothing is observed, and the active section stays "home" while scrolling | the observers track all four sections once the body is rendered, so the active link and dot follow the section in view | medium, not executed | Page.MountBeforeFrame | Page.MountAfterFrame |
