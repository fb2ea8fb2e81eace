# Portfolio site: contact relay, project carousel, hero text and contact form

A Dafny model of the behavioural core of a personal portfolio web site:

- **The contact relay** (`POST /api/contact`, module `ContactRelay`, `relay.dfy`).
  A pure function `Post` takes the parsed request body, the environment
  configuration and what the mail transport does with the mail. It returns
  the HTTP response and the mails handed to the transport. It validates the
  four fields by JavaScript truthiness only, builds the mail and renders the
  message's line breaks as `<br>`. It maps a delivered mail to 200 and a falsy
  field to 400. Every error thrown inside the handler gives 500 with the
  error's text: a body that does not parse, a name, email or subject that
  cannot be converted to a string, a message that is not a string, and a
  failed send.
- **The project carousel** (module `ProjectsCarousel`, `projects.dfy`). It
  holds the category filters, the view (placeholder, navigation buttons,
  navigation dots) and the swipe decision. Class `CategoryCarousel` holds
  `currentIndex` and the `[page, direction]` pair, updated in place by
  `handleNext`, `handlePrev`, `paginate`, `handleDragEnd` and `goToProject`.
- **The hero text** (module `HeroText`, `hero.dfy`). Class `ParagraphRotator`
  advances the paragraph index on each interval tick. The module also models
  the `split(/(\s+)/)` segmentation of a part's text into words and
  whitespace runs, and the class string given to a highlighted part.
- **The contact form** (module `ContactForm`, `contact_form.dfy`). Class
  `ContactSection` holds the four controlled fields and the flags
  `isSubmitting`, `submitSuccess` and `submitError`. A submission is two
  events: its start and the settling of the fetch. Typing and the banner
  timers can fire between them. `SubmitToRelay` and `RelayRound` connect the
  form to the relay model.
- Module `Cyclic` (`cyclic.dfy`) holds the wrap-around step forward and back
  shared by the carousel and the hero rotation.

The relay's mail body keeps the handler's template literal exactly,
indentation and line feeds included. Name, email and subject are
interpolated without HTML escaping, as the handler does.
`PresenceOnlyValidation` states that each of them appears verbatim in the
body.

## Model

| member | source | states |
|---|---|---|
| Cyclic.Succ | src/components/sections/Projects.tsx:196-198 | the next index stays in range; it is i + 1 before the last position and wraps from the last to 0 |
| Cyclic.Pred | src/components/sections/Projects.tsx:200-202 | the previous index stays in range; it is i - 1 after the first position and wraps from 0 to the last |
| Cyclic.PredSucc | src/components/sections/Projects.tsx:196-202 | stepping back undoes stepping forward |
| Cyclic.SuccPred | src/components/sections/Projects.tsx:196-202 | stepping forward undoes stepping back |
| Cyclic.SuccIterWithinRound | src/components/sections/Hero.tsx:60-63 | within one round, k steps from i land on i + k, wrapped once past the end |
| Cyclic.SuccIterAdd | src/components/sections/Hero.tsx:60-63 | a + b steps are a steps followed by b steps |
| Cyclic.SuccIterFull | src/components/sections/Hero.tsx:60-63 | n steps on a cycle of n come back to the start |
| Cyclic.SuccIterPeriodic | src/components/sections/Hero.tsx:60-63 | n more steps never change the position |
| Cyclic.SuccIterDistinct | src/components/sections/Hero.tsx:60-63 | between 1 and n - 1 steps never come back to the start |
| ContactRelay.Falsy | src/app/api/contact/route.ts:9 | JavaScript falsiness of a field: missing, the empty string, or a non-string value that is falsy (defined by cases, no contract of its own) |
| ContactRelay.AllFieldsPresent | src/app/api/contact/route.ts:9 | the validation passes exactly when none of the four fields is falsy (definition; its consequences are stated by Post and MissingFieldRejected) |
| ContactRelay.Converts | src/app/api/contact/route.ts:31-37 | subject, name and email all survive template-literal interpolation; an object whose `toString` is not callable does not (definition; its consequences are stated by Post and ConversionFailureSendsNothing) |
| ContactRelay.Post | src/app/api/contact/route.ts:4-55 | status is 200, 400 or 500; at most one mail reaches the transport; one does exactly when the body parsed, all four fields are truthy, subject, name and email convert to strings and the message is a string; 200 exactly when that mail was delivered; a 500 always carries an error text |
| ContactRelay.BuildMail | src/app/api/contact/route.ts:27-42 | sender and recipient come from the configuration; reply-to is the submitted email; the subject is the fixed prefix followed by the converted subject |
| ContactRelay.ConversionFailureSendsNothing | src/app/api/contact/route.ts:31-53 | fields that pass validation but fail to convert give 500 "Error sending email" with "Cannot convert object to primitive value", and no mail, whatever the transport would do |
| ContactRelay.ObjectNameExample | src/app/api/contact/route.ts:9-53 | a name given as a truthy object that cannot be converted passes validation but is answered 500 with the conversion error, and no mail is sent |
| ContactRelay.MissingFieldRejected | src/app/api/contact/route.ts:9-11 | any falsy field, whichever one, gives 400 "All fields are required" and sends nothing |
| ContactRelay.PresenceOnlyValidation | src/app/api/contact/route.ts:9-42 | any four non-empty strings, blank or malformed address included, give exactly one mail with the configured sender and recipient, the email as reply-to, the prefixed subject, and name, email, subject and rendered message verbatim in the body |
| ContactRelay.MailBody | src/app/api/contact/route.ts:32-41 | the HTML body contains each of the four interpolated values verbatim |
| ContactRelay.ReplaceNewlines | src/app/api/contact/route.ts:40 | no newline survives the global replacement; the rendering grows by exactly three characters per newline |
| ContactRelay.ReplaceNewlinesIdentity | src/app/api/contact/route.ts:40 | a message without newlines is left unchanged |
| ContactRelay.ReplaceNewlinesAppend | src/app/api/contact/route.ts:40 | the replacement distributes over concatenation: it is global and local to each character |
| ContactRelay.StartsWithRendering | src/app/api/contact/route.ts:40 | for a prefix free of '<' and newlines, the rendering begins with it exactly when the message does |
| ContactRelay.RestoreReplaceNewlines | src/app/api/contact/route.ts:40 | a message with no "<br>" of its own is recovered exactly from its rendering: the replacement loses nothing |
| ContactRelay.SentMessageRendering | src/app/api/contact/route.ts:32-45 | whenever a mail is sent, its message was a string; the rendered message has no newline, has the expected length, and appears in the body |
| ContactRelay.SendOutcomeMapping | src/app/api/contact/route.ts:45-53 | a delivered mail gives 200 "Email sent successfully!"; a failed send gives 500 "Error sending email" with the transport's error; one mail either way, no retry |
| ContactRelay.FailuresAnswer500 | src/app/api/contact/route.ts:49-53 | an unparsable body, a field that fails to convert, a non-string message and a failed send all give 500 "Error sending email" with the matching error text; a conversion failure wins over a non-string message, as interpolation comes first |
| ContactRelay.TwoLinesRendering | src/app/api/contact/route.ts:40 | two newline-free lines joined by a newline render as the same lines joined by "<br>" |
| ContactRelay.AdaMessageRendering | src/app/api/contact/route.ts:40 | "Line1\nLine2" renders as "Line1<br>Line2" |
| ContactRelay.AdaExample | src/app/api/contact/route.ts:4-47 | a two-line message from Ada is answered 200 and its mail carries "Line1<br>Line2" |
| ProjectsCarousel.FilterByCategory | src/components/sections/Projects.tsx:407-408 | every kept project has the category; a project is kept exactly when it is in the list and has the category; never longer than the list |
| ProjectsCarousel.FilterAppend | src/components/sections/Projects.tsx:407-408 | filtering keeps the list's order: it distributes over concatenation |
| ProjectsCarousel.FilterMultiplicity | src/components/sections/Projects.tsx:407-408 | each project of the category is kept as often as it occurs, and no other project is kept |
| ProjectsCarousel.FilterKeepsMatching | src/components/sections/Projects.tsx:407-408 | a list whose projects all have the category is kept whole |
| ProjectsCarousel.FilterIdempotent | src/components/sections/Projects.tsx:407-408 | filtering twice is filtering once |
| ProjectsCarousel.CategoriesDisjoint | src/components/sections/Projects.tsx:24 | the two category lists together hold at most all projects: no project is shown in both carousels |
| ProjectsCarousel.Dots | src/components/sections/Projects.tsx:386-389 | one dot per project; a dot is active exactly at the current index |
| ProjectsCarousel.CountActiveOne | src/components/sections/Projects.tsx:386-389 | a row of dots marking one index has exactly one active dot |
| ProjectsCarousel.Render | src/components/sections/Projects.tsx:183-194 | an empty category shows the placeholder; otherwise the current project is shown, with buttons and dots only when there is more than one project, and exactly one dot active |
| ProjectsCarousel.SwipeDirection | src/components/sections/Projects.tsx:229-245 | the decision is to page forward, back or not at all |
| ProjectsCarousel.SwipeMirror | src/components/sections/Projects.tsx:229-245 | mirroring the drag and the velocity mirrors the decision |
| ProjectsCarousel.SwipeFollowsDrag | src/components/sections/Projects.tsx:239-243 | a drag past 30 whose velocity does not point back pages the way it was dragged: left forward, right back |
| ProjectsCarousel.SwipeIgnoresNudge | src/components/sections/Projects.tsx:233-244 | a drag within 30 released at a speed of at most 30 does nothing |
| ProjectsCarousel.CategoryCarousel.constructor | src/components/sections/Projects.tsx:180-181 | the carousel starts at index 0 with page and direction 0 |
| ProjectsCarousel.CategoryCarousel.CurrentProject | src/components/sections/Projects.tsx:204 | the project on show is one of the category's projects |
| ProjectsCarousel.CategoryCarousel.HandleNext | src/components/sections/Projects.tsx:196-198 | the index steps forward cyclically; page and direction are unchanged |
| ProjectsCarousel.CategoryCarousel.HandlePrev | src/components/sections/Projects.tsx:200-202 | the index steps back cyclically; page and direction are unchanged |
| ProjectsCarousel.CategoryCarousel.Paginate | src/components/sections/Projects.tsx:207-217 | a positive direction records page index + 1 and steps forward; any other direction records the unreduced page index - 1 + length and steps back; the direction is recorded as given |
| ProjectsCarousel.CategoryCarousel.HandleDragEnd | src/components/sections/Projects.tsx:229-245 | a forward swipe steps the index forward, records page index + 1 and direction 1; a backward swipe steps it back, records page index - 1 + length and direction -1; no decision changes nothing |
| ProjectsCarousel.CategoryCarousel.GoToProject | src/components/sections/Projects.tsx:219-224 | jumps to the index and records it as the page; the direction is 1 only for an index beyond the current one, -1 otherwise |
| ProjectsCarousel.NextThenPrev | src/components/sections/Projects.tsx:196-202 | next then previous come back to the project on show |
| HeroText.ParagraphRotator.constructor | src/components/sections/Hero.tsx:58 | the rotation starts at paragraph 0 |
| HeroText.ParagraphRotator.Tick | src/components/sections/Hero.tsx:61-63 | each tick moves one paragraph forward, from the fourth back to the first; after t ticks the index is the t-th step of the cycle |
| HeroText.RotationPeriod | src/components/sections/Hero.tsx:61-63 | the paragraph shown repeats every four ticks and differs after one, two or three |
| HeroText.WordLength | src/components/sections/Hero.tsx:122 | the longest whitespace-free prefix |
| HeroText.SpaceLength | src/components/sections/Hero.tsx:122 | the longest whitespace prefix; positive when the text starts with whitespace |
| HeroText.SplitOnSpace | src/components/sections/Hero.tsx:122 | the split always yields an odd number of pieces: words at the even positions and the whitespace runs between them |
| HeroText.ChunkFacts | src/components/sections/Hero.tsx:122 | one split step cuts the text into a whitespace-free word, a maximal whitespace run (empty only when there is no whitespace), and a rest that does not start with whitespace |
| HeroText.SplitOnSpaceConcat | src/components/sections/Hero.tsx:122 | joining the pieces of the split gives back the text |
| HeroText.SplitOnSpaceShape | src/components/sections/Hero.tsx:122 | the pieces alternate between whitespace-free words and non-empty whitespace runs; only the first and last word may be empty; the first is empty exactly when the text is empty or starts with whitespace |
| HeroText.RenderPiece | src/components/sections/Hero.tsx:122-136 | an empty piece renders nothing; a whitespace piece renders as a plain span and any other as an animated word, both with the piece's text |
| HeroText.RenderText | src/components/sections/Hero.tsx:122-136 | the spans of a part: each split piece rendered in order (definition; its properties are stated by RenderTextStep, RenderTextRoundTrip and RenderTextShape) |
| HeroText.RenderTextStep | src/components/sections/Hero.tsx:122-136 | the rendering of a text is the rendering of its leading word, its first whitespace run, then the rendering of the rest |
| HeroText.RenderTextRoundTrip | src/components/sections/Hero.tsx:122-136 | the rendered spans' texts joined give back the part's text: no character is dropped or added |
| HeroText.RenderTextShape | src/components/sections/Hero.tsx:122-136 | every span is non-empty and is either all whitespace or free of it; words and gaps alternate; only the empty text renders nothing; the first span is a gap exactly when the text starts with whitespace |
| HeroText.PartClass | src/components/sections/Hero.tsx:120 | the class string of a part (definition; its cases are stated by PartClassCases) |
| HeroText.PartClassCases | src/components/sections/Hero.tsx:120 | a highlighted part with a class gets that class; a highlighted part without one gets the default highlight and size classes; any other part gets only the separating blank |
| ContactForm.With | src/components/sections/Contact.tsx:25-30 | the changed field takes the new value and every other field keeps its own |
| ContactForm.AsPayload | src/components/sections/Contact.tsx:44 | the relay sees four strings, which always convert; it finds all fields present exactly when none is empty |
| ContactForm.Change | src/components/sections/Contact.tsx:25-30 | the named field takes the value, every other field and every flag is kept |
| ContactForm.Begin | src/components/sections/Contact.tsx:32-36 | from any state: submitting, both banners lowered, the fields as they were |
| ContactForm.Finish | src/components/sections/Contact.tsx:47-69 | submitting ends; an ok response raises success and empties the fields; any other outcome raises the error and keeps them; a banner is raised only by its own outcome; an in-flight consistent state stays consistent |
| ContactForm.ClearSuccess | src/components/sections/Contact.tsx:50-52 | the success banner is lowered, nothing else changes, consistency is kept |
| ContactForm.ClearError | src/components/sections/Contact.tsx:57-66 | the error banner is lowered, nothing else changes, consistency is kept |
| ContactForm.TransitionsKeepConsistent | src/components/sections/Contact.tsx:16-69 | from the initial state, typing, starting, finishing an in-flight submission and both timers never show both banners, nor a banner while submitting |
| ContactForm.FinishNeedsInFlight | src/components/sections/Contact.tsx:206 | two outcomes for one start would show both banners; the disabled button is what rules this out |
| ContactForm.SubmissionRound | src/components/sections/Contact.tsx:32-69 | one submission ends not submitting, with the success banner exactly when the response is ok and the error banner otherwise; the fields are emptied on success and kept otherwise |
| ContactForm.TypingDuringSubmission | src/components/sections/Contact.tsx:25-49 | a field typed while a submission is in flight is lost if it succeeds and kept if it fails |
| ContactForm.RelayRound | src/components/sections/Contact.tsx:39-66 | against the relay, a form with an empty field gets 400; the success banner appears exactly when every field is filled and the mail is delivered, the error banner otherwise |
| ContactForm.ContactSection.constructor | src/components/sections/Contact.tsx:9-18 | empty fields, no flag raised |
| ContactForm.ContactSection.HandleChange | src/components/sections/Contact.tsx:25-30 | one field changes; the flags do not |
| ContactForm.ContactSection.BeginSubmit | src/components/sections/Contact.tsx:32-44 | only with the button enabled; raises submitting, lowers both banners, and sends the fields as they are |
| ContactForm.ContactSection.FinishSubmit | src/components/sections/Contact.tsx:47-69 | an ok response raises success and empties the fields; an error status or a rejected fetch raises the error; submitting always ends |
| ContactForm.ContactSection.SuccessTimerFires | src/components/sections/Contact.tsx:50-52 | the success banner is lowered and nothing else changes |
| ContactForm.ContactSection.ErrorTimerFires | src/components/sections/Contact.tsx:57-66 | the error banner is lowered and nothing else changes |
| ContactForm.SubmitToRelay | src/components/sections/Contact.tsx:32-69 | a whole submission to the relay: 200 exactly when the fields were filled and the mail delivered; success exactly on 200, error otherwise; fields emptied exactly on success |

## Left out

- The mail transport (`nodemailer`, its Gmail service and password) is a parameter: `SendOutcome` says whether the one mail was delivered or with which error the send failed.
- Reading `process.env` is a parameter: `Config` holds the sender and recipient, either possibly unset.
- `request.json()` and the destructuring after it are a parameter: `Request` is either the four field values or the error text of the failure.
- The HTTP framework (`NextResponse`) is reduced to the status, `message` and `error` of the JSON response.
- A thrown value that is not an `Error` makes `(error as Error).message` undefined, so the JSON omits it. The model gives every 500 an error text, because every error reaching the handler here is an `Error`.
- The error text when `message` is a non-string is the V8 wording "message.replace is not a function", and for an unconvertible object it is "Cannot convert object to primitive value". That wording belongs to the JavaScript engine.
- A `toString` or `Symbol.toPrimitive` that itself throws some other error is not modelled separately: every conversion failure carries the one text above.
- `console.error` logging in the handler and in the form is left out: it changes no state.
- The form's `fetch` is a parameter (`FetchOutcome`). `response.json().catch(() => null)` on an error status only feeds the log, so it is left out.
- The browser's `type="email"` format check is left out.
- ContactForm.ContactSection.BeginSubmit: the browser's `required` checks are not a precondition. The model over-approximates and lets a form with an empty field be submitted, as a browser without those checks would. `RelayRound` and `SubmitToRelay` cover that case: the relay answers 400 and the error banner shows. `Filled` states what the checks would demand.
- Timers: `setInterval` and `setTimeout` become events (`Tick`, `SuccessTimerFires`, `ErrorTimerFires`) that may happen at any time. Their five-second delays are not modelled. Neither is the interval's cleanup on unmount.
- ProjectsCarousel.SwipeDirection: drag offsets and velocities are reals. JavaScript's floating-point rounding at the thresholds is not modelled.
- Animation (framer-motion variants, `AnimatePresence`), icons, layout and markup beyond what is listed above are left out. So are the static content (project descriptions, paragraph texts), the other sections (About, Navbar, Footer), the layout, the page and the analytics.
- HeroText.ParagraphRotator: only the index is modelled. The paragraphs' content is not, beyond their number (4).

