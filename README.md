# Portfolio page behaviour, modelled in Dafny

This project models the interactive core of a single-page portfolio site's
script (`script.js`). The model covers:

- **Typing animation** (`typing.dfy`): the hero line types a phrase one
  character per tick. It pauses, deletes the phrase, and moves on to the
  next phrase, wrapping around.
- **Contact-form validation** (`validation.dfy`, `contact_form.dfy`):
  - Values are trimmed first.
  - Each of the fields `name`, `email`, `subject` and `message` has its own
    required message and minimum length or e-mail shape.
  - The verdict is written into the field's error slot and its `error`
    class.
  - A submission validates every field. It then either asks the user to fix
    the errors or shows "Sending message...". Later it shows the success
    message and resets the form.
  - The form judges fields by its constant `rules`, which its constructor
    sets to `ValidateValue`. The submission is proved for any rules, so the
    rule lemmas apply to it unchanged.
- **Navigation** (`navigation.dfy`):
  - The per-frame scroll update sets the `scrolled` class on the navbar and
    the `show` class on the scroll-to-top button.
  - The section in view is tracked, and its links are highlighted.
  - The mobile menu has three click handlers: the toggle, a menu link, and
    a click anywhere in the document.
- **Category filters** (`filter.dfy`): the skills filter and the projects
  filter. Their click handlers are the same code, so both are modelled by
  `CategoryFilter.FilterGroup`:
  - The skills filter (`script.js:344-363`) reads `data-category` on its
    buttons.
  - The projects filter (`script.js:378-398`) reads `data-filter` on its
    buttons.
- **Theme toggle** (`theme.dfy`): the theme is restored from storage,
  applied, saved, and shown by the icon.

The page-wide `state` record is the class `PageState.UiState`. The
navigation and theme classes share one instance of it and update it in
place.

The DOM is represented by the values the handlers read and write:
- class flags as `bool` fields;
- inline styles and text as strings;
- attributes that may be missing as `Option<string>`.

Timers are not run. Instead, every handler that would call `setTimeout`
returns the delay it would schedule. That delay is `Typing.TypingAnimation.Tick`'s
result, or a `Some(delay)` from the contact form's methods.

JavaScript semantics that matter here are written out:
- `String.prototype.trim` and the `\s` class use the ECMAScript
  white-space and line-terminator set.
- `.length` counts UTF-16 code units.
- `substring` clamps its end index.
- `getItem(...) || 'dark'` treats an empty stored value like a missing one.
- Two missing attributes compare equal, because `null === null`.

## Model

| member | source | states |
|---|---|---|
| PageState.UiState.constructor | script.js:30-36 | the shared state starts light, with the menu closed, section "home" and scroll position 0 |
| Typing.PrefixUpTo | script.js:64-70 | `substring(0, k)` is a prefix of the phrase: empty for k <= 0, the whole phrase for k >= its length, and exactly k characters in between |
| Typing.Next | script.js:61-80 | one tick moves the character index by one (up while typing, down while deleting). Typing turns into deleting exactly when the phrase is complete. Deleting turns into typing exactly when nothing is left, and only then does the phrase change, to the next one modulo the number of phrases. The bound on the character index is preserved when no phrase is empty |
| Typing.Shown | script.js:64-70 | the text written into the element is a prefix of the current phrase, whose length is the new character index when the bound holds |
| Typing.Delay | script.js:72-80 | the next tick waits the pause time after a phrase is completed, the delete speed while deleting, and the type speed otherwise |
| Typing.Run | script.js:82 | repeated ticks keep the phrase index in range |
| Typing.RunAdd | script.js:82 | `a + b` ticks are `a` ticks followed by `b` ticks |
| Typing.RunKeepsBounded | script.js:61-82 | when no phrase is empty, the character index stays within the current phrase at every tick |
| Typing.TypesToEnd | script.js:67-76 | typing from `ch` characters takes exactly `|phrase| - ch` ticks and ends with the whole phrase shown, now deleting |
| Typing.DeletesToStart | script.js:64-80 | deleting from `ch` characters takes exactly `ch` ticks and ends at the empty start of the next phrase |
| Typing.PhraseCycle | script.js:61-82 | a non-empty phrase takes 2 × its length ticks, from its empty start to the empty start of the following phrase |
| Typing.PhraseAfter | script.js:79 | the phrase reached after m phrase changes is a valid phrase index |
| Typing.PhrasesInOrder | script.js:79-80 | the phrases are visited in order, none skipped: after the m full cycles of the phrases met so far the animation stands at the empty start of the phrase m changes lead to |
| Typing.PhraseAfterIsMod | script.js:79 | m phrase changes from phrase 0 lead to phrase m mod n |
| Typing.EmptyPhraseRunsAway | script.js:67-80 | an empty phrase is never left; its character index grows without bound, past the phrase's length |
| Typing.SitePhrasesStayBounded | script.js:671-677 | with the page's five phrases, the bound holds at every tick |
| Typing.TypingAnimation.constructor | script.js:40-54 | speeds are the defaults (100, 50, 2000) with the given options over them, and the cursor starts at phrase 0, character 0, typing |
| Typing.TypingAnimation.Start | script.js:56-59 | with no element nothing changes and no tick is scheduled; otherwise the first tick runs |
| Typing.TypingAnimation.Tick | script.js:61-83 | the new cursor is `Next` of the old one, the element shows `Shown`, and the returned delay is `Delay` |
| Typing.Configure | script.js:43-49 | each speed is the caller's option when given and otherwise its default: 100 ms to type, 50 ms to delete, 2000 ms to pause |
| Typing.PageUsesDefaults | script.js:679-681 | the page, which passes no options, runs at the default speeds |
| Validation.IsSpace | script.js:425 | the white-space set of `trim()` and `\s` holds space, tab, line feed and carriage return, and never a letter, a digit, '@' or '.' |
| Validation.Trim | script.js:425 | the trimmed value is empty exactly when the value is all white space; otherwise it neither starts nor ends with white space |
| Validation.TrimPadded | script.js:425 | white space around a value without outer white space is removed exactly |
| Validation.TrimIdempotent | script.js:425 | trimming twice is trimming once |
| Validation.TrimIgnoresPadding | script.js:425 | extra white space around a value does not change its trim |
| Validation.TrimSplit | script.js:425 | a value that is not blank is its leading white space, its trim and its trailing white space, in that order |
| Validation.Utf16Length | script.js:437-468 | the length in UTF-16 code units lies between the number of characters and twice that number |
| Validation.PatternToShape | script.js:443-448 | a match of `^[^\s@]+@[^\s@]+\.[^\s@]+$` has no white space, exactly one '@' after a non-empty local part, and a domain with an inner '.' |
| Validation.ShapeToPattern | script.js:443-448 | every address of that shape matches the pattern |
| Validation.MatchesEmailPattern | script.js:444 | a match of the e-mail pattern has at least five characters (one each for the local part, '@', the domain label, '.' and the suffix) |
| Validation.IsEmailAddress | script.js:444 | an address of the e-mail shape has at least five characters |
| Validation.EmailPatternIff | script.js:443-448 | the pattern and the shape test accept the same strings |
| Validation.LengthRule | script.js:434-440 | a required length check fails with the "required" message on an empty value and with the "too short" message under the minimum number of UTF-16 units, and passes with no message exactly otherwise; the subject (lines 455-461) and message (lines 465-471) checks have the same shape |
| Validation.Judge | script.js:429-473 | the verdict on a trimmed value is valid exactly when its message is empty, and a field name outside the four checked ones always passes |
| Validation.ValidateValue | script.js:424-473 | the value is trimmed before it is judged; the verdict is valid exactly when its message is empty, and an unchecked field name always passes |
| Validation.FieldRules | script.js:432-473 | a blank value in a checked field gets that field's "... is required". Otherwise name, subject and message need at least 2, 3 and 10 UTF-16 units after trimming, and email must match the pattern, each failure with its own message |
| Validation.PaddingIgnored | script.js:425 | white space added around a value never changes its verdict |
| Contact.Marked | script.js:480 | after validation a field's `error` class is the negated verdict, and nothing else about the field changes |
| Contact.MarkedUpTo | script.js:501-505 | after the first i fields are validated, exactly those carry their verdicts and the rest are untouched |
| Contact.ReportedAll | script.js:475-505 | writing the verdicts of a run of fields into the slots in order leaves every slot whose name no field carries as it was |
| Contact.Reported | script.js:475-478 | a field's error slot gets the verdict's message and is shown exactly when the verdict is invalid; a name without a slot leaves every slot as it was, and other slots are untouched |
| Contact.ReportedKeys | script.js:497-504 | validating the fields never adds or removes an error slot |
| Contact.EverySlotReported | script.js:497-504 | when field names are distinct, after a submission every field with a slot finds its own verdict there; no field is skipped after the first failure |
| Contact.Validating | script.js:497-505 | validating the fields one by one keeps their number and leaves the fields not yet reached untouched |
| Contact.ValidatingMarks | script.js:501-505 | after i steps the first i fields, and only they, are marked with their own verdicts |
| Contact.ValidatingReports | script.js:501-505 | after i steps the error slots hold the verdicts of the first i fields written in order |
| Contact.ValidatingPasses | script.js:501-505 | after i steps the running result is true exactly when each of the first i fields passed |
| Contact.ValidatingAll | script.js:497-505 | once every field is done, each field carries its own verdict, the slots are the in-order fold of all verdicts, and the form passes exactly when every field does |
| Contact.BlankFieldBlocksSending | script.js:497-509 | a blank value in any checked field keeps the form from being sent |
| Contact.ContactForm.constructor | script.js:404-422 | the form holds its fields, its error slots by field name and its status line, and judges fields by `ValidateValue` |
| Contact.ContactForm.ValidateField | script.js:424-482 | returns the field's verdict; marks only that field, updates only its slot, and leaves the status line alone |
| Contact.ContactForm.ClearError | script.js:484-491 | editing a field clears its `error` class and empties and hides its slot, without validating the field |
| Contact.ContactForm.Posted | script.js:522-526 | with a status element, the status line shows the given text and kind; without one, it stays as it was |
| Contact.ContactForm.ShowMessage | script.js:521-533 | without a status element nothing changes; otherwise the message and kind are shown, and only a success message schedules hiding after 5000 ms |
| Contact.ContactForm.ValidateNext | script.js:501-505 | one step of the submission loop: the field is validated and the running result is cleared when it fails, advancing `Validating` by one field |
| Contact.ContactForm.ValidateAll | script.js:497-505 | every field is validated, in order, none skipped: fields, slots and result are those of `Validating` over all fields, which `ValidatingAll` spells out |
| Contact.ContactForm.HandleSubmit | script.js:493-519 | all fields are validated; each carries its own verdict, and when field names are distinct its slot reports it. Sending (after 2000 ms) is scheduled exactly when every field passes, with "Sending message..." shown; otherwise "Please fix the errors above." is shown and nothing is scheduled |
| Contact.ContactForm.FinishSending | script.js:515-518 | the success message is shown, hiding is scheduled after 5000 ms when the page has a status element, and every field's value returns to its default |
| Contact.ContactForm.HideMessage | script.js:529-531 | the status line is hidden and keeps its text |
| Navigation.Covers | script.js:193-196 | a band that holds the scroll position has positive height and starts 100 px above the section, at or before the position |
| Navigation.LastCovering | script.js:192-199 | the index found is the last section whose band [top - 100, top - 100 + height) holds the scroll position (which may be fractional), or -1 when none does |
| Navigation.ActiveSectionId | script.js:190-199 | a non-empty section in view is the id of a section whose band holds the scroll position |
| Navigation.ActiveIsCoveringSection | script.js:189-199 | when exactly one band holds the scroll position, that section is the one in view |
| Navigation.NoSectionInView | script.js:189-199 | when no band holds the scroll position, the section in view is "" |
| Navigation.Highlighted | script.js:204-209 | after the highlight moves, a link is active exactly when its `href` is `#` followed by the section id; hrefs are untouched |
| Navigation.HighlightIdempotent | script.js:204-209 | moving the highlight twice to the same section is moving it once |
| Navigation.BareHashLinksWhenNoneInView | script.js:204-209 | with no section in view, the highlighted links are those whose `href` is the bare "#" |
| Navigation.Navigation.constructor | script.js:111-121 | the component writes none of the modelled state: the navbar's, scroll-to-top button's and mobile navigation's classes and the body's overflow are as the markup left them, and the menu's classes mirror the shared state when the menu is closed, the mobile navigation hidden and the body unlocked |
| Navigation.Navigation.RecordScroll | script.js:126-147 | records the scroll position, fractional or not. The navbar is `scrolled` exactly beyond 50 px and the scroll-to-top button shown exactly beyond 300 px, each only when the element exists; nothing else changes |
| Navigation.Navigation.UpdateActiveSection | script.js:189-211 | the current section becomes the last section whose band holds the recorded scroll position. Links change only when that section changes, and then each is active exactly when it points at it, so links that agreed with the current section still agree |
| Navigation.Navigation.ToggleMenu | script.js:160-164 | the toggle flips the menu; the mobile navigation's `show` class and the body's scroll lock follow it |
| Navigation.Navigation.CloseMenu | script.js:167-173 | a mobile link closes the menu and unlocks scrolling |
| Navigation.Navigation.OutsideClick | script.js:176-182 | an open menu closes exactly when the click is neither inside the mobile navigation nor on the toggle |
| Navigation.Navigation.Click | script.js:159-183 | one click through all three handlers, in dispatch order: on the toggle it flips the menu (the document handler does not undo it); on a menu link or elsewhere it closes the menu; inside the menu it leaves it as it is. After the toggle, a link or a click that closes an open menu, the `show` class and scroll lock follow the menu; if they followed it before, they still do; without a mobile navigation its class is untouched. A click inside the menu, or elsewhere while it is closed, leaves the `show` class and the scroll lock as they were |
| CategoryFilter.Selects | script.js:356 | the "all" button selects every card; any other selects a card exactly when the categories are equal, two missing ones included (the projects filter repeats this test at line 390) |
| CategoryFilter.Filtered | script.js:353-362 | filtering keeps every card and its category |
| CategoryFilter.Activated | script.js:347-348 | after a click, the clicked button is the one and only active button |
| CategoryFilter.ShownIffSelected | script.js:353-362 | a card is displayed exactly when the button's category is "all" or equals the card's (two missing categories compare equal), and hidden otherwise; a displayed card replays the reveal animation and a hidden one keeps its animation |
| CategoryFilter.FilterIdempotent | script.js:353-362 | clicking the same button twice leaves the cards as one click did |
| CategoryFilter.LastClickDecides | script.js:353-362 | which cards are displayed depends only on the last button clicked |
| CategoryFilter.FilterGroup.constructor | script.js:340-342 | the filter holds its buttons and its cards |
| CategoryFilter.FilterGroup.Click | script.js:344-363 | the buttons become `Activated` for the clicked one, and the cards become `Filtered` by its category |
| Theme.ThemeName | script.js:252 | the saved value is "dark" exactly for the dark theme |
| Theme.IconClass | script.js:257 | the icon's class list is "theme-icon fas fa-" followed by "sun" on a dark page and "moon" on a light one |
| Theme.IconsDiffer | script.js:257 | the icon differs between the two themes |
| Theme.StartsDark | script.js:240-241 | the page starts dark exactly when the stored theme is missing, empty or "dark" |
| Theme.StoredRoundTrip | script.js:240-252 | a saved theme is the theme the page starts with on the next load |
| Theme.ThemeToggle.constructor | script.js:234-236 | creating the toggle restores the saved theme at once, consistently everywhere |
| Theme.ThemeToggle.Init | script.js:238-247 | the page starts dark exactly when storage holds nothing, "" or "dark"; afterwards the root class, storage and icon agree, and storage restores the same theme |
| Theme.ThemeToggle.SetTheme | script.js:249-259 | the shared state, the root `dark` class, the stored value and the icon (if present) all show the requested theme; the other state fields are untouched |
| Theme.ThemeToggle.ToggleTheme | script.js:261-263 | the theme flips and stays consistent everywhere |
| Theme.ThemeToggle.ToggleTwice | script.js:261-263 | two toggles from a consistent page restore the theme, the root class, the stored value and the icon |

## Left out

- The progress bar and its width are not modelled. This covers `updateProgressBar`, `handleProgressBar` and the progress-bar call inside the scroll update.
- Not modelled: the parallax effect, the particle system, smooth scrolling, the `ScrollToTop` component (its click handler calling `window.scrollTo`, script.js:537-550), the scroll-reveal animations, the performance monitor, the `visibilitychange` handler, the footer's year stamp and the skill bars' fill reveal. They are outside the modelled core.
- Timers, `requestAnimationFrame` and its `ticking` throttle are not run. Handlers return the delay they would schedule, and the timed continuations (`Tick`, `FinishSending`, `HideMessage`) are separate methods.
- Event-listener registration is not modelled: the `init` methods only attach handlers, which are modelled directly.
- `FormData`, `Object.fromEntries`, `localStorage` and the DOM are not modelled as such. Their observable parts are fields, and `form.reset()` is taken to restore every value to its default.
- PageState.UiState: the `isScrolling` field is not modelled, because the source sets it once and never reads it.
- Typing.TypingAnimation: the `isPaused` field and the `loop` option are not modelled, because the source sets them but never reads them.
- Typing.TypingAnimation: the character index counts characters. The page's `substring` counts UTF-16 units, so a phrase outside the Basic Multilingual Plane would be cut mid-character. The page's phrases are ASCII.
- Typing.TypingAnimation.Start: requires the phrase index to be in range. With an empty phrase list the page throws on `undefined.substring`, and that failure is not modelled.
- Contact.ContactForm.ValidateField: error slots are looked up by field name. The selector `[data-error-for="…"]` that would break for names containing quotes is not modelled.
- Navigation.Navigation.UpdateActiveSection: section positions are given as inputs at the time of the event, not read from a layout.
- Navigation.Navigation.Click: a click on an element that does not exist is excluded by its preconditions.
