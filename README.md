# MintFace landing page: a Dafny model of its view logic

MintFace's landing site is a React single-page application. Almost all of it is
presentation. This project models the few parts that hold state or make a
decision:

- **The waitlist form** (`email.dfy`, `waitlist.dfy`). `validateEmail` tests
  `^[^\s@]+@[^\s@]+\.[^\s@]+$`. `RegexMatch` gives that expression's meaning.
  `ValidateEmail` restates it as one `@`, no white space, a non-empty local part
  and a dot strictly inside the domain, and the two are proved equal on every
  string. The `WaitlistForm` class holds the form's three state cells. Its
  `HandleSubmit` prevents the default submission, then either sets the error
  message or clears the form, shows the success banner and schedules its reset.
- **Page navigation** (`navigation.dfy`). `App` holds `currentPage` as a free
  string that starts at `"home"`. Each `NavigateToPage` call stores the string
  unchecked and logs one scroll to (0, 0). `RenderCurrentPage` maps `"privacy"`
  and `"terms"` to their pages and every other string to the home sections, in
  order. The footer's links and the legal pages' back buttons call the optional
  `onNavigate` callback, here a possibly-null `App`.
- **The screenshot carousel** (`carousel.dfy`). An index in [0, 3) is advanced by
  an interval. The interval exists only while the section is mounted and in view.
  The visibility observer reports only once (`triggerOnce`), so rotation, once
  started, runs until unmount.
- **The collections modal** (`collections.dfy`). This contains the static table
  of three collections. It models `selectedCollection` and `isModalOpen` with
  `openModal` and `closeModal`, and `NFTModal`'s rendering. It also models how a
  click bubbles through the modal: the dialog stops propagation, so only the
  overlay and the close button close it.

`wrappers.dfy` holds `Option`, which stands for JavaScript's `null`. `dom.dfy`
holds the `preventDefault` flag of an event.

Each stateful component follows the same shape. A class holds the source's state
cells as fields, and a ghost `State()` gives them as a datatype value. Pure step
functions (`Submit`, `Navigate`, `Step`, `Open`, `Close`) say what each handler
does to that value. Each method ensures `State() == Step(old(State()), …)` and
spells out its new fields. Lemmas over `Run` (a fold of events) prove the
invariants that hold in every reachable state. Timers, visibility reports and
unmounting are events given by the environment.

Three behaviours of the code worth noting:
- The carousel's observer is configured with `triggerOnce: true`
  (src/components/AppPreviewSection.js:230-233). A later "not visible" report
  therefore does not stop the rotation (`VisibleTicksAdvance`), and the index
  keeps advancing with every timer firing until unmount
  (`RotationUntilUnmount`).
- `navigateToPage` accepts any string and raises no error. An unknown value is
  stored as it is and renders the home content (`PageOfFallsBackToHome`). Through
  the shipped links and buttons, only the three page names are ever requested
  (`RequestsStayNamed`).
- The screenshot count is the fixed length of a three-element table, so no
  configuration error can arise. `Next` is stated for any positive length.

## Model

| member | source | states |
|---|---|---|
| EmailValidation.ValidateEmailMatchesRegex | src/components/WaitlistForm.js:68-70 | The executable check accepts exactly the strings that `^[^\s@]+@[^\s@]+\.[^\s@]+$` matches: a non-empty `[^\s@]` run, `@`, a non-empty run, `.`, a non-empty run. Both directions are proved. |
| EmailValidation.AcceptedHasOneAtAndNoSpace | src/components/WaitlistForm.js:69 | Every string the expression matches has exactly one `@` and no white-space character. |
| EmailValidation.RejectsWithoutAt | src/components/WaitlistForm.js:69 | A string without `@`, the empty string included, is rejected. |
| EmailValidation.RejectsEmptyLocalPart | src/components/WaitlistForm.js:69 | A string that begins with `@` is rejected, whatever follows. |
| EmailValidation.RejectsDomainWithoutInteriorDot | src/components/WaitlistForm.js:69 | `local + "@" + domain` is rejected whenever `domain` has no `.` at an index from 1 to its length minus 2, whatever `local` is. |
| EmailValidation.Examples | src/components/WaitlistForm.js:69 | `""`, `"a@b"` and `"a@b."` are rejected; `"a@b.c"` is accepted. |
| Waitlist.SubmitRejected | src/components/WaitlistForm.js:74-77 | Submitting an address the expression rejects sets the error to "Please enter a valid email address." and leaves the address, the success flag and the pending resets unchanged. |
| Waitlist.SubmitAccepted | src/components/WaitlistForm.js:78-81 | Submitting an accepted address clears the error and the input, sets `submitted` and schedules exactly one reset. |
| Waitlist.SubmitRejectedTwice | src/components/WaitlistForm.js:74-77 | Submitting a rejected address twice leaves the same state as submitting it once. |
| Waitlist.SubmitThenExpire | src/components/WaitlistForm.js:78-81 | After an accepted submission, its timeout fires. The form is then empty, shows no banner and has as many resets pending as before the submission. |
| Waitlist.RunKeepsConsistent | src/components/WaitlistForm.js:72-91 | Any sequence of typing, submits and timeouts keeps two facts. The success banner is shown only while a reset is pending. The error holds only "" or the one message. |
| Waitlist.ReachableIsConsistent | src/components/WaitlistForm.js:64-66 | Every state reachable from the initial empty form is consistent in that sense. |
| Waitlist.WaitlistForm.constructor | src/components/WaitlistForm.js:64-66 | The form starts with an empty address, no error, no success banner and no timeout pending. |
| Waitlist.WaitlistForm.OnChange | src/components/WaitlistForm.js:91 | Typing replaces the address and changes nothing else. |
| Waitlist.WaitlistForm.HandleSubmit | src/components/WaitlistForm.js:72-82 | The default submission is prevented on every call. If the address is invalid, only the error is set. If it is valid, the error and the address are cleared, `submitted` is set and one reset is scheduled. |
| Waitlist.WaitlistForm.ResetFires | src/components/WaitlistForm.js:80 | The scheduled timeout sets `submitted` to false and changes nothing else. |
| Navigation.PageOfName | src/App.js:82-88 | Each page's own name renders that page, so the three names are told apart. |
| Navigation.PageOfFallsBackToHome | src/App.js:82-97 | A string renders home exactly when it is neither "privacy" nor "terms". A string that renders a legal page is that page's name. |
| Navigation.RenderCurrentPage | src/App.js:81-99 | The privacy page is shown exactly for "privacy" and the terms page exactly for "terms". Every other string shows Hero, Features, Collections, AppPreview, Download and Footer, in that order. |
| Navigation.InitialIsHome | src/App.js:74 | The initial page is "home": it renders the home content, and nothing has been scrolled yet. |
| Navigation.NavigateTwice | src/App.js:76-79 | Navigating twice to one page leaves the same page as navigating once, and scrolls to the origin twice. |
| Navigation.NavigateAllEffect | src/App.js:76-79 | After any sequence of requests, the page is the last one requested. Exactly one scroll to (0, 0) was appended per request. |
| Navigation.RequestsStayNamed | src/components/Footer.js:72-73 | Through the footer links and the back buttons, `currentPage` always holds "home", "privacy" or "terms". |
| Navigation.TermsAndBack | src/App.js:74-97 | From the start, navigating to "terms" shows the terms page, and then navigating to "home" shows the home content. Each of the two transitions scrolls once to the origin. |
| Navigation.App.constructor | src/App.js:74 | The app starts on "home" with no scroll made. |
| Navigation.App.NavigateToPage | src/App.js:76-79 | Sets `currentPage` to exactly the given string, unchecked, and records one scroll to (0, 0), even when the page does not change. |
| Navigation.FooterComponent.HandleLinkClick | src/components/Footer.js:58-63 | The default action is always prevented. With a callback, the app navigates to the given page. With none, nothing but the event is changed. |
| Navigation.FooterComponent.ClickPrivacy | src/components/Footer.js:72 | The Privacy link prevents the default action and navigates to "privacy" when a callback is given. |
| Navigation.FooterComponent.ClickTerms | src/components/Footer.js:73 | The Terms link prevents the default action and navigates to "terms" when a callback is given. |
| Navigation.LegalPage.ClickBack | src/components/PrivacyPolicy.js:118 | The back button of either legal page (TermsOfService.js has the same line 118) navigates to "home" when a callback is given, and does nothing otherwise. |
| Carousel.Next | src/components/AppPreviewSection.js:253 | The update `(prev + 1) % n` stays below n. It moves one place forward below the last index and wraps the last index to 0. |
| Carousel.RotateNoWrap | src/components/AppPreviewSection.js:253 | Below the last screenshot, k ticks move the index k places forward. |
| Carousel.FullCycle | src/components/AppPreviewSection.js:253 | For any positive length n and any index below n, n ticks return the index to where it started. |
| Carousel.ThreeScreenshots | src/components/AppPreviewSection.js:244-253 | There are three screenshots, and from 0 the index runs 0, 1, 2, 0. |
| Carousel.RunKeepsInv | src/components/AppPreviewSection.js:250-257 | Every event keeps the index in range. Exactly one interval is active while the section is mounted and in view, and none otherwise. |
| Carousel.ReachableInv | src/components/AppPreviewSection.js:235-257 | From mount, the index always stays in [0, 3) and at most one interval is ever active. |
| Carousel.InViewStays | src/components/AppPreviewSection.js:230-233 | With `triggerOnce`, once the section is in view it stays in view under any later events. |
| Carousel.NoRotationBeforeVisible | src/components/AppPreviewSection.js:250-252 | Until a visibility report of true arrives, no interval exists and the index does not change. |
| Carousel.NothingAfterUnmount | src/components/AppPreviewSection.js:255-257 | After unmount the interval has been cleared, so no later event changes anything. |
| Carousel.VisibleTicksAdvance | src/components/AppPreviewSection.js:230-233 | Once in view, a later visibility report of either value does not stop rotation: the next tick still advances the index by one, modulo 3. |
| Carousel.MountedUntilUnmount | src/components/AppPreviewSection.js:250-257 | Visibility reports and timer firings never unmount the section: without an unmount event it stays mounted. |
| Carousel.RotationUntilUnmount | src/components/AppPreviewSection.js:230-257 | Once mounted and in view, any events without an unmount keep the section mounted and in view with its one interval, and move the index exactly as `Rotate` does for the number of timer firings among them, whatever the observer reports. |
| Carousel.TicksRotate | src/components/AppPreviewSection.js:252-254 | Once in view, k timer firings in a row apply the interval callback k times. |
| Carousel.ThreeTicksAfterSighting | src/components/AppPreviewSection.js:235-257 | From mount, a first report of true followed by any events with three firings and no unmount shows the first screenshot again. |
| Carousel.AppPreviewSection.constructor | src/components/AppPreviewSection.js:235 | The mounted section starts at index 0, not in view, with no interval. |
| Carousel.AppPreviewSection.ObserverReports | src/components/AppPreviewSection.js:230-233 | The first report of true sets `inView` and installs one interval. Every other report changes nothing, and the index never changes here. |
| Carousel.AppPreviewSection.ClockTick | src/components/AppPreviewSection.js:252-254 | Mounted and in view, a period advances the index to `(prev + 1) % 3`. Otherwise the index is unchanged. |
| Carousel.AppPreviewSection.Unmount | src/components/AppPreviewSection.js:255-257 | The cleanup clears the interval: afterwards the section is unmounted with no interval, and the index is kept. |
| Collections.TableShape | src/components/CollectionsSection.js:180-271 | The table has three collections with distinct ids, each verified. Each collection has three NFTs with distinct ids, each NFT with three attributes. |
| Collections.OpenThenClose | src/components/CollectionsSection.js:273-281 | `openModal(c)` selects `c` and opens the modal. Closing afterwards returns to the initial state, whatever the state before. |
| Collections.RenderModal | src/components/NFTModal.js:276-311 | The modal renders nothing exactly when no collection is given. It shows the dialog exactly when a collection is given and it is open. The dialog shows that collection's name and its NFTs. |
| Collections.ClickOutcome | src/components/NFTModal.js:317-362 | A click calls `onClose` exactly when it lands on the overlay or the close button, and each of these calls it once. Any click inside the dialog is stopped there. Only the download button opens the download link. |
| Collections.RunKeepsInv | src/components/CollectionsSection.js:273-281 | Card clicks and modal clicks keep "the modal is open exactly when a collection is selected". |
| Collections.ReachableModal | src/components/CollectionsSection.js:177-178 | In every reachable state, an open modal has a collection. The modal then renders either nothing or the selected collection's dialog, never an empty presence. |
| Collections.SelectedFromTable | src/components/CollectionsSection.js:329-334 | If every card clicked is a collection of the table, the selected collection is always one of the table. |
| Collections.CollectionsSection.constructor | src/components/CollectionsSection.js:177-178 | Initially no collection is selected and the modal is closed. |
| Collections.CollectionsSection.OpenModal | src/components/CollectionsSection.js:273-276 | Selects the given collection and opens the modal. |
| Collections.CollectionsSection.CloseModal | src/components/CollectionsSection.js:278-281 | Closes the modal and clears the selection. |
| Collections.CollectionsSection.ClickModal | src/components/NFTModal.js:317-326 | A click on the shown dialog's overlay or close button closes it and clears the selection. Any other click changes nothing. |

## Left out

- Styling, responsive layout, theme token tables and every framer-motion
  variant, duration and easing. These are presentation only.
- The carousel's `-${currentScreenshot * 33.333}%` offset, because it is a
  floating-point animation value. The model keeps only the index it is
  computed from.
- The visibility observer's internals (threshold 0.1, intersection geometry).
  Visibility reports are input events, and only the once-true-stays-true effect
  of `triggerOnce` is modelled.
- Real time: the 3000 ms period and the 4000 ms timeout are discrete events
  (`Tick`, `ResetFired`).
- The waitlist's `setTimeout` is never cleared and would fire after an unmount.
  The form has no unmount event in this model.
- Browser side effects: `window.scrollTo` is recorded only as a log of target
  points. The download button's `window.open` is recorded only as an
  `OpenDownloadLink` effect. HeroSection's `scrollIntoView` and the APK
  download in PlatformsSection.js are not part of this model.
- The browser's own checks on the e-mail input (`type="email"`, `required`).
  They can stop a submission before `handleSubmit` runs, and the model covers
  only what `handleSubmit` does.
- JavaScript strings are UTF-16 code units, while Dafny strings are Unicode
  scalar values. Every character the expression treats specially (`@`, `.`, the
  `\s` set) is a single code unit, so every well-formed string is accepted by
  both or by neither. JavaScript strings holding an unpaired surrogate (such as
  `"\uD800@b.c"`, which `validateEmail` accepts) have no Dafny counterpart.
- React's batching and re-rendering. The state updates of one handler are
  applied in order, and `handleSubmit` reads `email` once, before any update.
- Presentational components: the legal pages' text, TelegramButton,
  FeaturesSection, DownloadSection, HeroSection and PlatformsSection's cards.
