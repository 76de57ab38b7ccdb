# Portfolio page interactivity, modelled in Dafny

This project models the logic in `script.js`, the client-side script of a
personal-portfolio page. The browser is abstracted away. Each mechanism
that keeps state or applies a rule becomes its own Dafny module:

- **Typewriter** (`typewriter.dfy`): the hero banner's role text. Each
  timer tick types one more character of the current role. At the end of
  the role the typewriter switches to deleting. When the text is empty it
  moves on to the next role, cyclically. `Step` is one tick as a function.
  `RoleTypewriter.TypeRole` is the same tick as a method on the
  `typingIndex` / `isDeleting` / `currentRole` state, proved equal to `Step`.
- **Reveal** (`reveal.dfy`): the scroll-reveal controller. The
  intersection observer delivers batches of (element, isIntersecting)
  entries. An element gets its "animated" treatment the first time it is
  seen intersecting. That treatment is the `animated` class, the skill-bar
  fill with a 200 ms stagger, and the floating cards with a 300 ms stagger.
  The `animatedElements` set ensures this happens at most once.
- **ContactForm** (`contact_form.dfy`): the form validator. It checks three
  fields and reports failures in a fixed order. The e-mail pattern
  `^[^\s@]+@[^\s@]+\.[^\s@]+$` is implemented as a scan and proved
  equivalent to a direct reading of the regular expression.
- **Projects** (`projects.dfy`): category filtering of the project cards,
  the filter buttons, and cyclic keyboard navigation over the visible cards.
- **Navigation** (`navigation.dfy`): choosing the active navigation link
  from the section under the probe line, and marking a clicked link active.
- **Theme** (`theme.dfy`), **MobileMenu** (`mobile_menu.dfy`),
  **Lookups** (`lookups.dfy`): the theme toggle, the mobile menu and its
  close triggers, and the notification-icon and social-link tables.
- **Portfolio** (`portfolio.dfy`): the keyboard, resize and nav-click
  handlers that drive several of these at once.

The global `state` object is split: each mechanism's class owns only the
fields it changes. Timer delays are not modelled. Each card or bar style is
modelled as its value once each click's timeouts have fired before the
next click.

Three behaviours of the code that are easy to misread, modelled as the
code has them:
- An empty role is not skipped. The cursor moves past it and the
  end-of-role test never fires, so typing goes on forever
  (`Typewriter.EmptyRoleNeverEnds`). The model therefore requires
  non-empty roles, which the page's fixed list satisfies.
- A skill bar's `data-width` is not parsed as a number. The attribute text
  is used as it is, followed by `%`. Only a missing or empty attribute
  becomes `"0"` (`Reveal.BarLevel`).
- A revealed element is not unobserved. It stays observed, and later
  entries for it are ignored because it is in the set
  (`Reveal.Redeliver`).

## Model

| member | source | states |
|---|---|---|
| `Typewriter.Prefix` | script.js:352-364 | `substring(0, end)` clamps `end` into the string; the result is a prefix of that length |
| `Typewriter.Step` | script.js:347-376 | one tick: the role changes only when a deletion reaches 0, and then to `(currentRole + 1) % roles.length`; deleting starts exactly when the cursor reaches the role length; typing resumes exactly when it returns to 0; with non-empty roles the cursor stays in range and the displayed text is the role's prefix of length `typingIndex` |
| `Typewriter.RunShows` | script.js:350-375 | after any positive number of ticks the invariant holds and the display equals `roles[currentRole][..typingIndex]` |
| `Typewriter.TypePhase` | script.js:350-359 | from any typing state, the rest of the role is typed in as many ticks as characters remain, ending in deleting mode with the whole role shown |
| `Typewriter.DeletePhase` | script.js:362-372 | from any deleting state, `typingIndex` ticks erase the role and make the next role active with cursor 0 and empty text |
| `Typewriter.FullCycle` | script.js:347-376 | a full type and delete cycle of role `r` takes twice its length and ends at role `(r + 1) % n`, cursor 0, empty display |
| `Typewriter.RoleAfterWraps` | script.js:369 | advancing `k <= n` roles from `r` lands on `r + k`, less `n` once it passes the end |
| `Typewriter.Cycles` | script.js:367-369 | after `k` full cycles the active role is `k` advances further on |
| `Typewriter.RolesComeBack` | script.js:367-369 | after one full cycle per role, the starting role is active again |
| `Typewriter.EmptyRoleNeverEnds` | script.js:352-355 | on an empty role the typewriter never deletes and never changes role; the cursor grows by one per tick |
| `Typewriter.TwoRoleScenario` | script.js:347-376 | with roles "A", "BB" the display goes "A", "", "B", "BB", "B", "" and the state returns to the start |
| `Typewriter.SourceRolesOk` | script.js:337-342 | the page's four roles are non-empty, so the invariants apply |
| `Typewriter.RoleTypewriter.constructor` | script.js:336-345 | the typewriter starts at cursor 0, typing, role 0 |
| `Typewriter.RoleTypewriter.TypeRole` | script.js:347-376 | the tick method changes the state exactly as `Step` does, keeps the invariant, and leaves the display equal to the cursor's prefix |
| `Reveal.BarLevel` | script.js:327 | the bar level is the attribute text, or "0" when it is missing or empty; never empty |
| `Reveal.SkillBarEffects` | script.js:323-333 | bar `i` gets width `level + "%"` after `200 * i` ms |
| `Reveal.FloatingCardEffects` | script.js:383-392 | floating card `i` is shown after `300 * i` ms |
| `Reveal.AnimateElement` | script.js:299-310 | the `animated` class is added first; a skill category gets all its bar fills and the hero visual all its floating cards; no other bar width or card is applied, and none at all without the class |
| `Reveal.Deliver` | script.js:281-285 | the batch callback over the entries in order: the animated set only grows, and at most one element is animated per entry |
| `Reveal.DeliverSound` | script.js:281-285 | for the batch callback `Deliver`: the set only grows, and only by the elements animated; an element is animated only if an entry shows it intersecting and it was not already in the set; no element is animated twice; every intersecting element ends in the set |
| `Reveal.DeliverSeen` | script.js:282 | a batch whose intersecting elements are all animated already changes nothing |
| `Reveal.Redeliver` | script.js:281-285 | delivering the same batch again changes nothing |
| `Reveal.AtMostOnceAcrossBatches` | script.js:281-285 | a later batch animates no element an earlier batch, or the initial set, already animated |
| `Reveal.RevealController.constructor` | script.js:36 | the animated set starts empty |
| `Reveal.RevealController.OnIntersection` | script.js:280-286 | the callback loop leaves the set and the applied effects exactly as `Deliver` prescribes, and the set only grows |
| `ContactForm.IsValidEmail` | script.js:480-483 | an accepted address has at least five characters, no whitespace and exactly one '@' |
| `ContactForm.IsValidEmailMatchesPattern` | script.js:480-483 | the scan (one '@' not first, no whitespace or second '@', a '.' in the domain that is neither its first nor last character) accepts exactly what the regular expression matches |
| `ContactForm.FormErrors` | script.js:457-471 | each complaint is present iff its field fails (name shorter than 2, e-mail invalid or missing, message shorter than 10); complaints come in the order name, e-mail, message, each at most once |
| `ContactForm.ValidateForm` | script.js:457-478 | the form is accepted iff name, e-mail and message all pass |
| `ContactForm.SubjectIgnored` | script.js:457-478 | the subject never affects the verdict or the report |
| `ContactForm.ErrorText` | script.js:500 | `errors.join('\n')`: splitting the text at line breaks gives back exactly the complaints' messages, in order; the text opens with the first complaint and ends with the last |
| `ContactForm.SubmitForm` | script.js:429-455 | a valid form is sent unchanged; an invalid one only shows its complaints, one per line |
| `Projects.Split` | script.js:409 | `split(' ')` gives at least one piece, no piece holds a space, and joining the pieces with spaces gives the text back |
| `Projects.SplitJoin` | script.js:409 | splitting undoes joining space-free pieces |
| `Projects.Categories` | script.js:409 | a missing `data-category` gives no categories; a present one gives the space-split list |
| `Projects.ShouldShow` | script.js:410 | the "all" filter shows every card, a missing filter none; any other filter that shows a card is one of the space-separated words of the card's category attribute |
| `Projects.ShownIffListed` | script.js:409-410 | a card listing `words` is shown iff the filter is "all" or one of the words |
| `Projects.MissingAttributes` | script.js:409-410 | a card without categories is shown only by "all"; a missing filter shows no card |
| `Projects.VisibleFrom` | script.js:648-650 | the visible cards, each exactly once, in increasing document order |
| `Projects.IndexOf` | script.js:654-655 | `indexOf` gives the first position holding the focused card, or -1 when there is no focused card or it is not visible |
| `Projects.NextIndex` | script.js:657-663 | the new index is in `[0, n)`, and 0 when the focus was on no visible card |
| `Projects.StepsCancel` | script.js:660-662 | a forward step then a backward step, or the reverse, returns to the same index |
| `Projects.NavigationWraps` | script.js:660-662 | forward from the last card gives the first; back from the first gives the last |
| `Projects.ProjectGallery.constructor` | script.js:34 | all cards displayed, filter "all" |
| `Projects.ProjectGallery.FilterProjects` | script.js:407-426 | each card ends up displayed iff it passes the filter |
| `Projects.ProjectGallery.HandleFilterClick` | script.js:395-405 | exactly the clicked button is active, its filter is applied and stored as the current filter |
| `Projects.ProjectGallery.NavigateProjects` | script.js:647-666 | no visible card: nothing is focused; otherwise a visible card, the cyclic neighbour of the focused one, or the first visible card when the focus is elsewhere |
| `Navigation.HrefFor` | script.js:191-196 | the link target is `#` followed by the id, and `#null` for a section without id |
| `Navigation.LastContaining` | script.js:188-201 | the chosen section contains the probe and no later one does; none is chosen only if no section contains it |
| `Navigation.NavBar.constructor` | script.js:60 | the links with their initial `active` marks |
| `Navigation.NavBar.MarkOnlyActive` | script.js:165-166 | exactly the clicked link is active |
| `Navigation.NavBar.UpdateActiveNavLink` | script.js:185-202 | with probe `scrollY + 80 + 50`, the active links are exactly those pointing at the last section containing the probe; with no such section nothing changes |
| `Theme.Toggled` | script.js:210-213 | "light" becomes "dark", any other value "light" |
| `Theme.ToggleTwice` | script.js:210-213 | toggling twice restores "light" or "dark" |
| `Theme.IconClass` | script.js:224 | the moon icon exactly for the light theme, the sun otherwise |
| `Theme.SavedOrDefault` | script.js:206 | a saved non-empty theme is used, otherwise "light" |
| `Theme.ThemeController.constructor` | script.js:205-208 | the theme starts as the saved one or "light", with attribute and icon in step |
| `Theme.ThemeController.SetTheme` | script.js:215-227 | the theme, the document attribute and the icon follow the new theme |
| `Theme.ThemeController.ToggleTheme` | script.js:210-213 | the new theme is the toggle of the old one |
| `MobileMenu.Menu.constructor` | script.js:33 | the menu starts closed |
| `MobileMenu.Menu.ToggleMobileMenu` | script.js:130-141 | the flag and both `active` classes flip; page scroll is locked exactly while open |
| `MobileMenu.Menu.CloseMobileMenu` | script.js:143-147 | the menu is closed afterwards; on a closed menu nothing changes, so closing twice equals closing once |
| `MobileMenu.Menu.OnKeyDown` | script.js:637-639 | Escape closes the menu; other keys leave it alone |
| `MobileMenu.Menu.OnResize` | script.js:714-716 | a width above 768 closes the menu; smaller widths leave it alone |
| `Lookups.NotificationIcon` | script.js:545-553 | a known type gets its icon; "info-circle" exactly for types other than success, error and warning |
| `Lookups.SocialUrl` | script.js:571-581 | a link exactly for the five known platforms (inherited object keys aside, see below); each known platform gets exactly its configured link: e-mail is `mailto:` the configured address, the others are https links |
| `Lookups.HandleSocialClick` | script.js:556-569 | links without a platform are followed; a known platform opens its link; an unknown one opens nothing |
| `Portfolio.HandleKeyboardNavigation` | script.js:635-645 | Escape closes the menu; arrow keys move the focus as `NavigateProjects` does (right is forward); other keys move no focus |
| `Portfolio.HandleResize` | script.js:712-720 | a desktop width closes the menu, and the active link is recomputed |
| `Portfolio.HandleNavClick` | script.js:157-174 | when the target section exists, the clicked link alone becomes active and the menu closes; otherwise nothing changes |

## Left out

- DOM querying, listener wiring, and the `classList`, `style` and
  `innerHTML` writes are abstracted. The model keeps state only: flags,
  sets, and the list of effects applied. Notification markup and the
  injected CSS are presentation only.
- Timers are not modelled: `setTimeout` delays, `requestAnimationFrame`
  with the `isScrolling` flag, and `throttle`/`debounce`. Their meaning is
  wall-clock timing. Delays survive only as numbers in the reveal effects.
- The typewriter's pause ticks are not separate states. As in the code,
  the mode switch happens in the same tick as the last character.
- Intersection-observer geometry (`threshold`, `rootMargin`) is not
  modelled. The observer is an input sequence of entries, and the set of
  observed elements is that of the entries.
- The lazy image loader and resource preloading are not modelled. They
  are browser loading work, not page logic.
- Particles and the hero parallax are not modelled. They use random
  numbers and floating point.
- `localStorage` is not modelled. The saved theme is a constructor
  parameter, and the write in `setTheme` is left out.
- `window.open` and the WhatsApp link built with `encodeURIComponent` are
  left out. They are I/O and a foreign call. `HandleSocialClick` returns
  the URL that `window.open` receives. `SubmitForm` returns only the
  decision to send, not the WhatsApp link it would open.
- Smooth scrolling, the navbar background and the scroll indicator only
  change presentation and are not modelled.
- The card hover tilt is cosmetic and not modelled.
- Positions are integers. The page reports them as floating-point pixels.
- String lengths count characters. JavaScript counts UTF-16 code units, so
  characters outside the Basic Multilingual Plane count twice there.
- `Lookups.NotificationIcon`: inherited object keys such as "constructor"
  are not modelled. On such a key the page would return a function, not
  the default icon.
- `Lookups.SocialUrl`: inherited object keys such as "constructor" are not
  modelled. On such a key the page gets a function, which is truthy, so
  `handleSocialClick` opens a window; the model returns no link and
  `HandleSocialClick` ignores the click.
- `Projects.ProjectGallery.NavigateProjects`: returns the card that gets
  focus, given the currently focused card as input. The browser's
  focusability rules for cards are not modelled.
- `Projects.ProjectGallery.FilterProjects`: two filter clicks within 300 ms
  are not modelled. A card hidden by the first click and shown by the second
  is hidden again when the first click's timeout sets `display = 'none'`,
  because the page never cancels that timeout. The model leaves the card
  shown, and `NavigateProjects` may then focus it where the page skips it.
- `Projects.ProjectGallery.HandleFilterClick`: assumes the click target is
  the filter button itself. The page reads `data-filter` from `e.target`,
  which may be an element nested inside the button.
- `Typewriter.RoleTypewriter.constructor`: models the page when the
  `.role-highlight` element exists. Without it the page starts no
  typewriter.
- `Theme.ThemeController.SetTheme`: assumes the toggle button and its icon
  exist. The page checks for both before updating the icon.
