# CampusPulse front end, modelled in Dafny

CampusPulse is a Next.js campus-events front end that runs entirely on mock
data. This project models its logic:

- the two authentication contexts: the step-up login with a one-time code, and the self-contained mock context with browser storage;
- the code-entry dialog;
- the request middleware;
- the redirect guards at the top of each page;
- the student event browser, the admin event and registration tables, and the student dashboard;
- the navigation bar;
- the keyword-driven support chat.

Every operation is a pure function over immutable datatypes. The clock, the
random draw behind the one-time code, and the browser storage are explicit
parameters or fields.

Files and modules:

| file | module | models |
|---|---|---|
| option.dfy | Optional | `Option` |
| text.dfy | Text | JavaScript string operations: ASCII case mapping, `includes`, `startsWith`, `split`/`join`, `toString`, `parseInt` |
| lists.dfy | Lists | `filter`, `slice(0, n)` and `[...new Set(xs)]` |
| mock_data.dfy | MockData | the fixture and its invariants |
| step_up_auth.dfy | StepUpAuth | `lib/auth-context.js` |
| mock_auth.dfy | MockAuth | `lib/auth-context.tsx` |
| otp_dialog.dfy | OtpDialog | `components/auth/otp-verification-dialog.jsx` |
| middleware.dfy | Middleware | `middleware.js` |
| page_guards.dfy | PageGuards | the `useEffect` redirects of the pages |
| events_page.dfy | EventsPage | `app/events/page.jsx` |
| admin_events.dfy | AdminEvents | `app/admin/events/page.jsx` |
| admin_registrations.dfy | AdminRegistrations | `app/admin/registrations/page.jsx` |
| dashboard.dfy | Dashboard | `app/dashboard/page.jsx` |
| navbar.dfy | Navbar | `components/layout/navbar.jsx` |
| support_ai.dfy | SupportAI | `components/support-ai.jsx` |

Statuses, roles and filters stay strings, because the source compares strings
and has "anything else" branches. The support chat's canned answers are
abstracted to an enumeration, `Reply`: only which answer is chosen matters,
not its wording.

Where the project's written description and the code disagree, the model
follows the code. Three places where they differ:

- The description speaks of a registration engine with capacity checks, approval and waitlist promotion. No such engine exists in the code: the approve, reject, delete and duplicate buttons only show a toast, and the model says so.
- The step-up code is drawn from 100000 to 999999, not from 000000 to 999999, so it never has a leading zero.
- `login` in `lib/auth-context.js` is `requestOTP` under another name.

## Model

| member | source | states |
|---|---|---|
| MockData.FixtureConsistent | lib/mock-data.js:11-89 | The fixture is consistent: no event is over capacity; "full" means every place is taken; event and registration ids are distinct; every registration names an event and every event names a club; one registration per student and event; only full events have a waitlist |
| MockData.FixtureFullEvent | lib/mock-data.js:49-89 | Event 4 is the only full event, and registration 4 (the only waitlisted one) is on it |
| StepUpAuth.FindAccount | lib/auth-context.js:36-38 | `users.find` returns the first account whose email and password both match, and none exactly when no account matches |
| StepUpAuth.SessionOf | lib/auth-context.js:85-90 | The stored user has the account's id, email, role and name, and no password |
| StepUpAuth.GenerateOtp | lib/auth-context.js:30-32 | The code is six decimal digits with no leading zero, and denotes 100000 plus the random draw |
| StepUpAuth.RequestOtp | lib/auth-context.js:35-67 | No matching account: refused and nothing changes. An administrator gets a six-digit challenge valid for five minutes, an "OTP sent to" message and no session. Any other account is signed in at once, and a pending challenge is left alone |
| StepUpAuth.Login | lib/auth-context.js:97-99 | `login` answers exactly as `requestOTP` does |
| StepUpAuth.VerifyOtp | lib/auth-context.js:70-95 | No pending challenge: refused. Expired only when strictly past the deadline, and the challenge is dropped. A wrong code in time keeps the challenge. The right code in time signs in the challenged account and clears the challenge |
| StepUpAuth.Logout | lib/auth-context.js:101-105 | The session ends; a pending challenge is not touched |
| StepUpAuth.AdminNeedsChallenge | lib/auth-context.js:9-12 | The administrator's credentials always raise a challenge and never a session |
| StepUpAuth.StudentSignsInDirectly | lib/auth-context.js:62-66 | The student's credentials sign in the student at once |
| StepUpAuth.ExpiryIsStrict | lib/auth-context.js:75-78 | An issued code is accepted at exactly five minutes and refused one millisecond later, which also drops the challenge |
| StepUpAuth.RetryAfterWrongCode | lib/auth-context.js:80-82 | After a wrong code the right one, still in time, is accepted |
| StepUpAuth.ChallengeIsConsumed | lib/auth-context.js:84-94 | A code works once: right after it succeeds there is no pending challenge |
| StepUpAuth.AdminSignInCompletes | lib/auth-context.js:35-95 | Administrator credentials, then the issued code within five minutes, give the administrator's session |
| StepUpAuth.LogoutKeepsChallenge | lib/auth-context.js:35-105 | Signing out between the administrator's credentials and the code leaves nobody signed in, yet the code entered in time still gives the administrator's session |
| MockAuth.EmailShapeIsPattern | lib/auth-context.tsx:81-84 | The executable e-mail check accepts exactly the strings the regular expression `^[^\s@]+@[^\s@]+\.[^\s@]+$` describes |
| MockAuth.LowerCaseKeepsPattern | lib/auth-context.tsx:83 | Lower-casing before the test never changes its outcome |
| MockAuth.ValidEmailIffPattern | lib/auth-context.tsx:81-84 | `isValidEmail` holds exactly when the address matches the pattern |
| MockAuth.AdminAddressIsValid | lib/auth-context.tsx:136 | The one accepted address passes the e-mail check |
| MockAuth.Store | lib/auth-context.tsx:46-51 | Storing keeps the user and an expiry that parses back to one hour after `now` |
| MockAuth.Remove | lib/auth-context.tsx:55-60 | Both storage entries are removed |
| MockAuth.StoredSessionLasts | lib/auth-context.tsx:64-68 | A stored session is valid exactly while `now` is less than the storing time plus one hour |
| MockAuth.LoadUser | lib/auth-context.tsx:92-111 | On mount a valid stored user is restored and an invalid one is cleared from storage; loading ends either way |
| MockAuth.Login | lib/auth-context.tsx:113-171 | An empty field is refused first, then a malformed address. Exactly `admin@example.com`/`password` succeeds, and then the admin user with a time-stamped token is stored. Every other attempt with both fields filled and a well-formed address fails with "Invalid email or password". A failed attempt leaves user and storage alone |
| MockAuth.Logout | lib/auth-context.tsx:173-178 | No user and empty storage afterwards |
| MockAuth.VerifyOtp | lib/auth-context.tsx:182-205 | A code that is not six characters is refused with the format message; exactly `123456` succeeds and clears the pending code; any other six characters get "Invalid OTP"; the user never changes |
| MockAuth.OtpAcceptedWithoutSignIn | lib/auth-context.tsx:113-205 | `verifyOTP` does not depend on a sign-in: after any refused sign-in from a signed-out state, "123456" is accepted and still nobody is signed in |
| MockAuth.ClearError | lib/auth-context.tsx:180 | The error is gone; user, storage, pending code and `loading` are unchanged |
| MockAuth.ClearErrorUndoesRefusedLogin | lib/auth-context.tsx:113-180 | After a refused sign-in from an error-free state, clearing the error gives back exactly the state before the attempt |
| MockAuth.LoginIgnoresPasswordStrength | lib/auth-context.tsx:87-89 | `login` never applies the eight-character rule: any two wrong non-empty passwords get the same answer |
| MockAuth.ShortPasswordReachesCredentialCheck | lib/auth-context.tsx:124-163 | A four-character password with a valid address is refused as wrong credentials, not as weak |
| MockAuth.SessionSurvivesReload | lib/auth-context.tsx:92-111 | After signing in at `t`, a reload restores the user exactly when less than an hour has passed, and otherwise starts signed out with empty storage |
| MockAuth.LogoutSurvivesReload | lib/auth-context.tsx:173-178 | After logout, a reload finds no user |
| OtpDialog.LastChar | components/auth/otp-verification-dialog.jsx:48 | `slice(-1)` yields the last character, or nothing for an empty value |
| OtpDialog.HandleChange | components/auth/otp-verification-dialog.jsx:44-55 | Non-digits are ignored. Otherwise only the edited slot changes, to the value's last character. Focus moves to the next slot exactly when a digit was typed before the last slot. Well-formed slots stay well formed |
| OtpDialog.Spread | components/auth/otp-verification-dialog.jsx:68-69 | Pasted digits fill the first slots, one each, and the rest stay empty |
| OtpDialog.HandlePaste | components/auth/otp-verification-dialog.jsx:63-73 | A paste whose first six characters are all digits puts digit k in slot k and leaves the rest empty, so that joining the slots gives those digits back, and focuses the next slot (at most the last). Any other paste changes nothing |
| OtpDialog.SpreadJoin | components/auth/otp-verification-dialog.jsx:63-69 | Joining the slots after a paste gives back exactly the pasted digits |
| OtpDialog.HandleVerify | components/auth/otp-verification-dialog.jsx:75-84 | The code is submitted exactly when the joined slots have six characters; a submission sets `loading`, which disables the inputs and Verify |
| OtpDialog.VerifyAnswered | components/auth/otp-verification-dialog.jsx:85-95 | Once `onVerify` answers, `loading` is cleared and the slots are emptied whatever the answer, so Verify stays disabled until a new code is typed |
| OtpDialog.StepWhileWaiting | components/auth/otp-verification-dialog.jsx:83-158 | While a submission waits, typing, pasting and Verify change nothing, and no other interaction ends the wait |
| OtpDialog.NoSecondSubmission | components/auth/otp-verification-dialog.jsx:83-158 | Any run of interactions before the answer keeps the dialog waiting with Verify disabled, so the code cannot be submitted twice |
| OtpDialog.SetOpen | components/auth/otp-verification-dialog.jsx:27-32 | Opening a closed dialog restarts the countdown at 300 seconds; an unchanged `open` leaves the dialog exactly as it was, and closing keeps the countdown |
| OtpDialog.Tick | components/auth/otp-verification-dialog.jsx:34-42 | The countdown drops by one only while the dialog is open and time is left |
| OtpDialog.Resend | components/auth/otp-verification-dialog.jsx:170-174 | Resending restores five minutes and clears the slots |
| OtpDialog.CountdownStopsAtZero | components/auth/otp-verification-dialog.jsx:34-42 | `n` ticks leave `max(t - n, 0)` seconds and the slots unchanged |
| OtpDialog.ExpiresAfterLifetime | components/auth/otp-verification-dialog.jsx:139-174 | Five minutes after opening (or after an unchanged `open` on a countdown of at most five minutes), input and Verify are disabled until a resend re-enables input |
| OtpDialog.ConcatLength | components/auth/otp-verification-dialog.jsx:76 | Slots of at most one character join to six characters exactly when none is empty |
| OtpDialog.VerifyButtonMatchesGuard | components/auth/otp-verification-dialog.jsx:158 | An enabled Verify button always reaches `onVerify`: the button's condition and the handler's length check agree |
| OtpDialog.StepKeepsValid | components/auth/otp-verification-dialog.jsx:22-174 | Every interaction keeps six slots of at most one digit each, and the countdown within 0 to 300 |
| OtpDialog.RunKeepsValid | components/auth/otp-verification-dialog.jsx:22-174 | Any sequence of interactions keeps the dialog valid |
| OtpDialog.FormatTime | components/auth/otp-verification-dialog.jsx:97-101 | The rendering is digits, a colon, and exactly two digits |
| OtpDialog.FormatTimeRoundTrip | components/auth/otp-verification-dialog.jsx:97-101 | Reading the rendering back as minutes times sixty plus seconds gives the count |
| OtpDialog.OpensAtFiveMinutes | components/auth/otp-verification-dialog.jsx:24 | The dialog opens showing "5:00" |
| Middleware.Decide | middleware.js:3-18 | Without the cookie, any path outside `/login` is redirected to `/login`. With it, `/login` is redirected to `/dashboard`. Everything else goes on |
| Middleware.Handle | middleware.js:20-22 | Paths outside the matcher pass through untouched |
| Middleware.MatchedBehaviour | middleware.js:3-22 | On matched paths, without the cookie exactly the dashboard paths go to sign-in, and with it exactly `/login` goes to the dashboard |
| Middleware.NoRedirectLoop | middleware.js:3-22 | Following a redirect with the same cookie state is never redirected again |
| PageGuards.SignedInGuard | app/events/page.jsx:23-27 | Only a settled, empty session is sent to `/login` |
| PageGuards.AdminGuard | app/admin/events/page.jsx:22-28 | A settled empty session goes to `/login`; anyone but an administrator, including a still-loading empty session, goes to `/dashboard`; administrators stay |
| PageGuards.DashboardGuard | app/dashboard/page.jsx:18-24 | A settled empty session goes to `/login`, administrators go to `/admin`, and students stay |
| PageGuards.SignedInUsersSettle | app/admin/registrations/page.jsx:20-26 | For a settled signed-in user, one redirect is enough: the target page accepts the user, and it is `/admin` exactly for administrators |
| PageGuards.ContentOnlyForUsers | app/my-activities/page.jsx:19-31 | When the placeholder is not shown there is a user, and the page never sends them to `/login` |
| EventsPage.CategoryColumn | app/events/page.jsx:37 | `map(e => e.category)` keeps length and position |
| EventsPage.Categories | app/events/page.jsx:37 | "all" first, then each category that occurs, once, in the order of first occurrence |
| EventsPage.FilteredEvents | app/events/page.jsx:39-45 | An event is listed exactly when its title or club contains the query ignoring case, and the category and status filters are "all" or equal |
| EventsPage.FilteredEventsInOrder | app/events/page.jsx:39-45 | The result keeps the data's order and every kept event's multiplicity |
| EventsPage.NoFilterShowsAll | app/events/page.jsx:19-45 | With the initial empty query and both filters on "all", every event is listed |
| EventsPage.StatusFilterNarrows | app/events/page.jsx:44 | Choosing a status never lists more than "all" |
| EventsPage.RegisterLabel | app/events/page.jsx:149 | "Join Waitlist" exactly for full events, otherwise "Register" |
| EventsPage.CountLabel | app/events/page.jsx:103 | "Showing N event", with a final "s" exactly when N is not 1 and nothing else after it |
| EventsPage.CountLabelParsesBack | app/events/page.jsx:103 | `parseInt` of the caption after "Showing " gives back N |
| EventsPage.FixtureCategories | app/events/page.jsx:37 | Over the fixture, the menu is all, Technology, Arts, Sports, Academic |
| EventsPage.FixtureFullFilter | app/events/page.jsx:39-45 | Over the fixture, the "full" status shows only the workshop |
| AdminEvents.Search | app/admin/events/page.jsx:38-41 | An event is listed exactly when its title or club contains the query ignoring case |
| AdminEvents.SearchIsUnfilteredBrowse | app/admin/events/page.jsx:38-41 | The admin search equals the student browser's filter with both menus on "all" |
| AdminEvents.SearchProperties | app/admin/events/page.jsx:38-41 | The table keeps the fixture order, and an empty search lists every event |
| AdminEvents.Apply | app/admin/events/page.jsx:43-49 | Typing sets the query; delete and duplicate leave the page as it was |
| AdminEvents.DeleteDuplicateChangeNothing | app/admin/events/page.jsx:43-49 | Delete and duplicate leave the listed events and their count unchanged |
| AdminRegistrations.Filtered | app/admin/registrations/page.jsx:36-38 | "all" shows every registration; any other filter shows exactly those with that status, each as often as it occurs in the data |
| AdminRegistrations.FilteredInOrder | app/admin/registrations/page.jsx:36-38 | The rows keep the data's order |
| AdminRegistrations.Counters | app/admin/registrations/page.jsx:48-50 | The pending, approved and waitlist counters are each the number of rows the matching filter shows; together they are at most the number of registrations, with equality exactly when every status is one of the three |
| AdminRegistrations.CounterMatchesFilter | app/admin/registrations/page.jsx:36-50 | Each counter equals the number of rows its filter shows |
| AdminRegistrations.Badge | app/admin/registrations/page.jsx:155-160 | approved, pending and waitlist each have their own variant; anything else is destructive |
| AdminRegistrations.ActionsExclusive | app/admin/registrations/page.jsx:165-196 | A row offers at most one kind of action, and offers one exactly when its badge is not destructive |
| AdminRegistrations.OnClick | app/admin/registrations/page.jsx:71-115 | A stat card or filter button sets the filter; approve and reject leave the page as it was |
| AdminRegistrations.StatCardShowsItsRows | app/admin/registrations/page.jsx:71-85 | Clicking a counter shows exactly as many rows as it counts |
| AdminRegistrations.ApproveRejectChangeNothing | app/admin/registrations/page.jsx:40-46 | Approving or rejecting changes no shown row |
| AdminRegistrations.FixtureCounters | app/admin/registrations/page.jsx:48-50 | Over the fixture: one pending, two approved, one waitlisted |
| Dashboard.MyRegistrations | app/dashboard/page.jsx:34 | Exactly the registrations whose student is the user, each as often as it occurs in the data |
| Dashboard.AllUpcoming | app/dashboard/page.jsx:35 | Exactly the events whose status is "upcoming", each as often as it occurs in the data |
| Dashboard.UpcomingEvents | app/dashboard/page.jsx:35 | At most three upcoming events: the leading ones of the upcoming list, and all of them when there are fewer than three |
| Dashboard.UnreadNotifications | app/dashboard/page.jsx:36 | Exactly the unread notifications, each as often as it occurs in the data |
| Dashboard.ListsKeepOrder | app/dashboard/page.jsx:34-36 | All three lists keep the order of the data |
| Dashboard.EventCardLabel | app/dashboard/page.jsx:217 | "Join Waitlist" exactly for full events, otherwise "Register Now" |
| Dashboard.LabelsOfferWaitlistAlike | app/dashboard/page.jsx:217 | The dashboard card and the event browser's card (app/events/page.jsx:149) offer the waitlist on exactly the same statuses, and otherwise the plain registration |
| Dashboard.RegistrationBadge | app/dashboard/page.jsx:114 | Approved gets the default variant, waitlist the secondary one, and anything else the outline; never destructive |
| Dashboard.BadgesAgreeOnlyWhenApproved | app/dashboard/page.jsx:114 | The student's and the administrator's badges agree exactly on approved registrations |
| Dashboard.Render | app/dashboard/page.jsx:26-36 | The placeholder is shown exactly while loading or signed out. Otherwise: exactly the user's own registrations, the first three upcoming events (all of them when there are fewer), and exactly the unread notifications |
| Dashboard.ContentMeansNoLoginRedirect | app/dashboard/page.jsx:18-26 | Rendered content never goes with a redirect to `/login`, and stays put exactly for non-administrators |
| Dashboard.FixtureMyRegistrations | app/dashboard/page.jsx:34 | Over the fixture, student "2" has registrations 1, 2 and 4 |
| Dashboard.LeadingUpcomingShown | app/dashboard/page.jsx:35 | When the first three events are upcoming, they are the ones shown |
| Dashboard.FixtureUpcoming | app/dashboard/page.jsx:35 | Over the fixture, the first three events are shown as upcoming |
| Dashboard.FixtureUnread | app/dashboard/page.jsx:36 | Over the fixture, the first two notifications are unread |
| Navbar.Heads | components/layout/navbar.jsx:16-20 | The join of `map(n => n[0])`: each part in turn contributes its first character, and an empty part contributes nothing |
| Navbar.Initials | components/layout/navbar.jsx:16-20 | The initials are the upper-cased first characters of the words of the name, and no longer than the name |
| Navbar.HeadsAreWordStarts | components/layout/navbar.jsx:16-20 | Split, first characters and join pick exactly the characters that start a word, however the spaces fall |
| Navbar.InitialsHaveNoSpace | components/layout/navbar.jsx:16-20 | The initials never contain a space |
| Navbar.TwoWords | components/layout/navbar.jsx:16-20 | A two-word name gives its two first letters, upper-cased |
| Navbar.ThreeWords | components/layout/navbar.jsx:16-20 | A three-word name gives its three first letters, upper-cased |
| Navbar.HomeLink | components/layout/navbar.jsx:27 | The logo leads to `/admin` for administrators and to `/dashboard` otherwise |
| Navbar.MenuLinks | components/layout/navbar.jsx:35-62 | Administrators get four links, all to administrator pages; others get three, none to one; the first link is the home link |
| Navbar.MenuLinksAdmitViewer | components/layout/navbar.jsx:35-62 | Every menu link leads to a page whose guard lets the viewer stay |
| Navbar.Render | components/layout/navbar.jsx:14-27 | Nothing is rendered exactly when there is no user; otherwise the role's home link, exactly the role's menu (whose first entry is the home link), the upper-cased word starts of the name as initials, and the user's name, email and role |
| SupportAI.FirstTopicFrom | components/support-ai.jsx:59-122 | The first single-level rule that fires, and none exactly when no rule fires |
| SupportAI.RankOfTopic | components/support-ai.jsx:59-122 | Each single-level answer appears once in the rule list, at its rank |
| SupportAI.TopicOfRank | components/support-ai.jsx:59-122 | Rank and position are inverse: the answer at an answer's rank is that answer |
| SupportAI.Decide | components/support-ai.jsx:32-123 | The registration group wins, with full, cancel and approval checked in that order. Then the login group, where reset wins. Then the first topic rule whose keyword occurs. Otherwise the fallback |
| SupportAI.GetAIResponse | components/support-ai.jsx:32-123 | The classifier never answers with the greeting |
| SupportAI.CaseInsensitive | components/support-ai.jsx:33 | A message, its lower-case and its upper-case forms get the same answer |
| SupportAI.RegistrationGroup | components/support-ai.jsx:36-47 | A registration answer is given exactly when the lower-cased message contains "register" |
| SupportAI.WaitlistNeedsNoRegister | components/support-ai.jsx:36-98 | The waitlist answer is given only for messages with a waitlist keyword and without "register" |
| SupportAI.FindEventUnreachable | components/support-ai.jsx:63-88 | The search answer needs "search" or "filter", because "find event" is claimed earlier by the navigation rule |
| SupportAI.FindEventMeansFind | components/support-ai.jsx:63 | A message with "find event" triggers the navigation rule |
| SupportAI.SendAsWritten | components/support-ai.jsx:126-153 | A blank input sends nothing. Otherwise the user message is numbered length + 1, the input is cleared, and the answer is prepared with id length + 2, fixed at send time |
| SupportAI.DeliverAsWritten | components/support-ai.jsx:150-151 | The prepared answer is appended and typing ends |
| SupportAI.ResendBeforeAnswerCollides | components/support-ai.jsx:130-152 | From any chat, two sends before the first answer arrives give the second user message and the first answer the same id |
| SupportAI.QuickResendDuplicatesIds | components/support-ai.jsx:142-152 | Sending twice before the first answer arrives gives two messages with id 3 |
| SupportAI.Send | components/support-ai.jsx:126-140 | A blank input sends nothing; otherwise the user message is appended, numbered by position, and its answer is requested |
| SupportAI.Deliver | components/support-ai.jsx:142-152 | The answer is numbered by its position when it arrives |
| SupportAI.StepsKeepNumbered | components/support-ai.jsx:126-153 | With answers numbered on arrival, ids stay equal to positions whatever the interleaving |
| SupportAI.QuickResendNumbered | components/support-ai.jsx:126-153 | The same quick resend keeps distinct ids under the corrected numbering |
| SupportAI.SendAppendsOne | components/support-ai.jsx:127-138 | A send appends one message exactly when the input is not blank |
| SupportAI.QuickActionAsWritten | components/support-ai.jsx:169-172 | The delayed send sees the input from before the click: a blank old input only fills the input box, and a non-blank one is sent instead of the query |
| SupportAI.QuickActionSendsNothing | components/support-ai.jsx:262-272 | On the opening screen, where the quick questions show, a click sends nothing |
| SupportAI.QuickAction | components/support-ai.jsx:169-172 | A quick question sends its own query and requests its answer; a blank query sends nothing |
| SupportAI.QuickQuestionsHaveText | components/support-ai.jsx:162-167 | None of the four quick questions is blank |

## Left out

- Browser storage as JSON, cookies, toasts, `router.push`, focus movement, `scrollIntoView` and timestamps: storage is two explicit slots, a redirect is a returned route, and focus is a returned slot index.
- The persistence of the step-up session in `localStorage` (lib/auth-context.js:20-27, 65, 92, 103): the model keeps only the in-memory `(user, pendingOTP)` state.
- `typeof window` checks: the model is always in the browser.
- Timer delays that stay separate steps: the chat's 800 ms answer delay (`Send`, then `Deliver`) and the dialog's 1 s countdown interval (`Tick`). The 100 ms quick-question delay is folded into one call, SupportAI.QuickActionAsWritten or SupportAI.QuickAction. That call keeps its effect: the delayed send uses the click-time input. Messages typed within the 100 ms are left out.
- The 500 ms mock latency of the tsx `login` and `verifyOTP` is folded into the single call MockAuth.Login or MockAuth.VerifyOtp, so nothing can happen between the start of the call and its result. Interleavings in that gap are left out, such as a `logout` or `clearError` after `login` has cleared the error but before it signs the user in.
- MockAuth.Login: both `Date.now()` reads of the tsx login (token and expiry) are one `now`, because nothing in the code separates them.
- The tsx `login` does not touch `loading`; only the initial state and the end of the session restore set it. MockAuth.Login therefore leaves `loading` unchanged, and no loading flag is modelled during the 500 ms latency.
- OtpDialog: the `handleKeyDown` backspace focus move, because it changes focus only.
- StepUpAuth.GenerateOtp: `Math.random()` is the parameter `draw`, assumed to be below 900000 as `floor(Math.random() * 900000)` is.
- Registration capacity checks, approval, rejection and waitlist promotion: the code implements none of them. The buttons only show a toast.
- The percentage and chart arithmetic of app/admin/page.jsx and app/admin/reports/page.jsx, which is floating point. The pages are modelled only through their guards.
- app/page.js, app/login/page.jsx, app/unauthorized/page.js, app/dashboard/page.js and the my-activities counts: pages that only wire the contexts and fixture into markup.
- Badge and button styles of the event cards and admin event rows: styling only.
- MOCK_ACHIEVEMENTS and the hard-coded notification count "3" in the navbar: constants only shown, never computed.
- Unicode case mapping: `toLowerCase`/`toUpperCase` are modelled on ASCII letters only.
- String length and indexing count code points, while JavaScript's `length` and `s[i]` count UTF-16 units. The two differ only outside the Basic Multilingual Plane. For example, MockAuth.VerifyOtp counts "12345😀" as six characters and answers "Invalid OTP", where the tsx check (`otp.length`) counts seven and asks for a valid 6-digit code. Likewise Navbar.Heads takes a whole astral first letter, where `n[0]` takes only its high surrogate. The password-length rule is counted the same way.
- SupportAI.Decide: reply texts are abstracted to the `Reply` enumeration.
- Navbar.TwoWords: the demo names "Alex Morgan" and "Dr. Sarah Johnson" are covered by the general two- and three-word lemmas, not by lemmas on the literal strings.
- The step-up `login` and `requestOTP` are not asynchronous here: each returns its result directly.

## Findings

| source | as written | input that shows it | evidently intended | confidence | as-written member | corrected member |
|---|---|---|---|---|---|---|
| components/support-ai.jsx:142-152 | The answer's id is `messages.length + 2`, taken from the render in which the user sent, before the answer arrives | With only the greeting in the chat, send "a", then send "b" before the first answer arrives: the second user message and the first answer both get id 3 | Every message has its own id, so React keys stay unique | not executed | SupportAI.QuickResendDuplicatesIds | SupportAI.StepsKeepNumbered |
| components/support-ai.jsx:169-172 | `handleQuickAction` sets the input, then calls the `handleSendMessage` of the same render, which still sees the old, empty input | From the opening screen, click "How to register?": the input shows the question and nothing is sent | A quick question sends its query | not executed | SupportAI.QuickActionSendsNothing | SupportAI.QuickAction |
