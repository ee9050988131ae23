# Event site page logic, modelled in Dafny

This project models the client-side logic of the event website's single
script, `index.tsx`. It covers the behaviour the script adds to the site's
pages.

- **Field validation.** The per-field validator `validateField` decides
  names, organisations, emails, phones, job titles, websites, text areas,
  selects, the date of birth and the consent boxes.
- **Error display.** `showError` and `clearError` are modelled over a fixed
  layout of form groups.
- **Form-specific checks.** The student form has an interest group. The
  speaker form checks sessions, headshot and consents.
- **Submission handlers.** Five forms have handlers. Each handler:
  validates; sends the form data to the form's spreadsheet web app; reads
  the response; then shows the success view or raises an alert and
  restores the button.
- **Navigation.** The active-page highlight. The exclusive navigation
  dropdowns.
- **Countdowns.** The two countdown timers.
- **Agenda.** The FAQ accordion, the agenda tabs, and the "Save to
  Calendar" menus. The iCalendar file and its download name.
- **Exit-intent dialog.** The dialog is shown once per session.
- **Floor plan.** Booth data, counts, the package filter and the details
  dialog. The enquiry link and how the booth form pre-fills from it.

Modules follow the script's structure:

| module | content |
|---|---|
| `Text` | trimming, case, decimal digits, splitting |
| `Patterns` | the three regular expressions |
| `FieldValidator` | `validateField` as a decision |
| `ErrorDisplay` | error elements and the `invalid` class |
| `CompositeRules` | the student and speaker custom checks |
| `Submission` | the submit handlers |
| `Countdown` | the countdown timers |
| `Calendar` | the iCalendar file and its download name |
| `Widgets` | dropdowns, calendar menus, tabs, FAQ, exit dialog |
| `Navigation` | the active-page highlight |
| `FloorPlan` | the floor plan and the booth form's pre-fill |

Things that change state in place are classes:
- lists of page elements are fixed-size arrays of flags;
- the error display of a form is a `Screen` value held by an `ErrorBoard`;
- a form's button, views and traffic are fields of a `FormController`.

The clock, `fetch`, `sessionStorage`, the URL and the page's DOM queries
become parameters:
- the current time;
- the response of a request;
- the stored session flag;
- the search string or path;
- the layout and the values of elements.

## Model

| member | source | states |
|---|---|---|
| Text.Trim | index.tsx:46 | the result is a slice of the input with only white space before and after it; it is empty exactly when the input is all white space, and otherwise neither starts nor ends with white space |
| Text.TrimIdempotent | index.tsx:46 | trimming twice is trimming once |
| Text.Pad2 | index.tsx:320-323 | `String(n).padStart(2, '0')` is all digits, at least two long, exactly two below 100, and reads back as `n` |
| Text.DecimalOfNatToString | index.tsx:1307-1311 | `n.toString()` is all digits and reads back as `n` |
| Text.JoinSplit | index.tsx:172-188 | splitting at a separator and joining with it gives the string back |
| Text.AfterLastIsLastPart | index.tsx:173 | `split('/').pop()` is the text after the last separator |
| Patterns.EmailIffShape | index.tsx:78 | a value matches the email pattern exactly when it is a non-blank local part, '@', and a domain holding a '.' with non-empty text on both sides, none of the parts holding '@' or white space |
| Patterns.EmailExampleAccepted | index.tsx:78 | "a@b.com" matches the email pattern |
| Patterns.EmailExampleNoDot | index.tsx:78 | "a@b" does not: its domain has no '.' |
| Patterns.EmailExampleSpace | index.tsx:78 | "a b@c.com" does not: white space is not allowed before the '@' |
| Patterns.EmailExampleNoBreakSpace | index.tsx:78 | "a\u00A0b@c.com" does not either: `\s` also covers the no-break space |
| Patterns.PhoneExamples | index.tsx:93 | "+974 1234567" matches the phone pattern, and so does the same number with a no-break space; "abc" does not |
| Patterns.UrlAcceptsLanguage | index.tsx:115 | an optional `http://` or `https://` in any case (the pattern has the `i` flag), two or more dot-separated labels of word characters and '-', and an optional path starting with '/' always match the website pattern |
| Patterns.UrlIffLanguage | index.tsx:115 | a value matches the website pattern exactly when it is such a scheme, two or more labels joined by '.', and such a path |
| Patterns.TwoLabelUrl | index.tsx:115 | two labels joined by '.', with any allowed scheme and path, match the website pattern |
| Patterns.NoDotIsNotUrl | index.tsx:115 | a value without a '.' never matches: the host needs two labels |
| Patterns.UrlExampleRejected | index.tsx:115 | "not a url" is rejected |
| Patterns.UrlExampleBareHost | index.tsx:115 | "example.com", a host without scheme or path, is accepted |
| FieldValidator.RequiredMessageOf | index.tsx:50-72 | every name, organisation, title and text-area id has exactly the "is required" message of its table entry (Company, School/Institution, Organization, Job Title, Position) |
| FieldValidator.RequiredMessageKeys | index.tsx:50-133 | the message table covers exactly the name, organisation, title and text-area ids |
| FieldValidator.BlankTextRule | index.tsx:50-72 | for those ids the field fails, with its message, exactly when the trimmed value is empty |
| FieldValidator.EmailFieldRule | index.tsx:73-87 | an all-space email fails as "required"; otherwise it passes exactly when the trimmed value matches the pattern, and fails with the "valid email" message when it does not |
| FieldValidator.PhoneFieldRule | index.tsx:88-102 | a blank phone fails only when the field is required; a non-blank one passes exactly when it matches the pattern |
| FieldValidator.WebsiteFieldRule | index.tsx:112-124 | a blank website fails only when required; a non-blank one passes exactly when it matches the URL pattern |
| FieldValidator.SelectFieldRule | index.tsx:134-157 | a select or the date of birth fails exactly when its untrimmed value is empty, with "Please make a selection." or "Date of birth is required." |
| FieldValidator.ConsentFieldRule | index.tsx:158-167 | a consent box fails, with "You must consent to continue.", exactly when unchecked |
| FieldValidator.UnlistedIdIsValid | index.tsx:38-168 | an element whose id is in no case of the switch always passes |
| ErrorDisplay.ClearAfterShow | index.tsx:9-35 | clearing an element after showing an error on it leaves the page as clearing alone would |
| ErrorDisplay.ApplyAllGroup | index.tsx:38-48 | after validating a list of inputs, each error element holds the message of the last input writing to it, and is shown exactly when that input failed; error elements no input writes to keep their state |
| ErrorDisplay.ApplyAllElement | index.tsx:9-35 | after validating a list of inputs, an element's `invalid` class reflects the last decision on it |
| ErrorDisplay.ApplyAllIdempotent | index.tsx:38-48 | validating the same inputs a second time changes nothing |
| ErrorDisplay.EveryInputReported | index.tsx:399 | when inputs write to distinct error elements, each one's element shows its own decision: `map` runs every validator, with no short-circuit |
| ErrorDisplay.ErrorBoard.ShowError | index.tsx:9-21 | with no enclosing group nothing changes; otherwise the group's error element, if any, gets the message and is shown, and the element gets `invalid` when it takes the class (not a `div`, not a file input, not inside a consent group) |
| ErrorDisplay.ErrorBoard.ClearError | index.tsx:23-35 | with no enclosing group nothing changes; otherwise the group's error element, if any, is emptied and hidden, and `invalid` is removed under the same condition as above |
| ErrorDisplay.ErrorBoard.ValidateField | index.tsx:38-168 | the page is updated by clear-then-show, and the result is true exactly when the decision is valid |
| ErrorDisplay.ErrorBoard.ValidateAll | index.tsx:399 | the page is that of validating every input in order, and the result is true exactly when every input passes |
| CompositeRules.InterestVerdictIff | index.tsx:511-531 | with a container, the interests pass exactly when a box is checked and, if 'other' is checked, its text is not blank; no box checked gives the "at least one" message |
| CompositeRules.InterestReports | index.tsx:516-528 | the container's error element is shown exactly when no box is checked; when one is, the other-text element reports the other-text rule |
| CompositeRules.ValidateInterests | index.tsx:511-531 | the page after the check, and true exactly when the group passes |
| CompositeRules.SpeakerReportsEachPart | index.tsx:804-841 | every speaker check runs regardless of earlier ones: headshot, promotional consent and recording consent each report on their own error element |
| CompositeRules.SpeakerReportsSessions | index.tsx:807-815 | the Day 1 error element is shown exactly when both session groups are present and neither has a checked box |
| CompositeRules.MissingPartsPass | index.tsx:804-841 | an element missing from the page never fails its check |
| CompositeRules.ValidateSpeaker | index.tsx:804-841 | the page after all four checks, and true exactly when every present part passes |
| CompositeRules.CheckPartHere | index.tsx:817-839 | one check shows its message exactly when its part is present and empty, and clears it otherwise |
| CompositeRules.CheckPartElsewhere | index.tsx:817-839 | one check touches no other error element |
| Submission.CaptionsDistinct | index.tsx:420-478 | "Submitting..." differs from every form's own button label, so the caption shows whether a submission is in progress |
| Submission.DeliveredIff | index.tsx:444-456 | a submission is delivered exactly when the request is answered with a 200-299 status and a JSON body whose `result` is "success" |
| Submission.StatusFailure | index.tsx:449-451 | a status outside 200-299 fails with the form's status message followed by the status in decimal |
| Submission.ScriptFailure | index.tsx:453-456 | an ok response that is not a success reports the script's error, or the form's default text |
| Submission.FailureMessageNonEmpty | index.tsx:473-475 | the alert after any failure carries a non-empty reason whenever the rejection it comes from has one |
| Submission.RemoveField | index.tsx:891 | `FormData.delete`: an entry stays exactly when it was present under another name |
| Submission.RemoveFieldAppend | index.tsx:891 | deleting a name commutes with concatenation, so the order of the remaining entries is kept |
| Submission.RemoveAbsentField | index.tsx:891 | deleting a name the data lacks changes nothing |
| Submission.ContactProceedsIffInputsValid | index.tsx:399-416 | the contact form submits exactly when every required input passes |
| Submission.FormController.RunChecks | index.tsx:399-416 | the page after the required and form-specific checks, true exactly when the submission may proceed, and the deck downloaded exactly when the contact interest is "exhibiting" |
| Submission.FormController.Submit | index.tsx:396-487 | a validated submission records one URL-encoded request to the form's sheet (the speaker form without its headshot), disables the button and shows "Submitting..."; a refused one sends nothing and leaves the button |
| Submission.FormController.Resolve | index.tsx:444-479 | a delivered response hides the form and shows the success view (the contact form also sends to its mail relay); a failure raises the form's own alert text ("Sorry, there was a problem with your inquiry/registration/application. … Error: ", word for word per form, as at lines 475, 594, 689, 767 and 916) followed by the reason, re-enables the button and restores its label |
| Countdown.SplitDistance | index.tsx:320-323 | the hours, minutes and seconds stay in range, and the four fields account for the distance down to the last whole second |
| Countdown.SplitUnique | index.tsx:320-323 | a bounded split that accounts for the distance is the split produced |
| Countdown.RecomposeSplit | index.tsx:320-323 | splitting what a bounded split accounts for gives it back |
| Countdown.RenderShowsParts | index.tsx:320-329 | each rendered text is the field in decimal; days has at least two digits, the clock fields exactly two |
| Countdown.Timer.Tick | index.tsx:310-342 | once the distance is negative the timer stops and the container holds "<h4>" + message + "</h4>"; otherwise the texts are the rendered split of the distance |
| Calendar.ParseFormatTime | index.tsx:1130-1141 | the iCalendar stamp of a date with a four-digit year is a `YYYYMMDDTHHMMSSZ` stamp and parses back to the date |
| Calendar.ShortYearStamp | index.tsx:1133 | a year below 1000 is not zero-padded, so its stamp is not in that format |
| Calendar.SplitJoinCrlf | index.tsx:1146-1161 | lines joined with CRLF split back into the same lines when none holds a line feed |
| Calendar.EscapeRoundTrip | index.tsx:1146-1161 | escaping a value gives TEXT (section 3.3.11 of RFC 5545: no control character but tab, and ';', ',', '\\' and line feed escaped) exactly when the value holds no control character other than tab and line feed, and unescaping the result always gives the value back |
| Calendar.IcsLines | index.tsx:1146-1161 | the file is exactly eleven lines: BEGIN:VCALENDAR, VERSION:2.0, BEGIN:VEVENT, URL and the page address, DTSTART and DTEND with the two stamps, SUMMARY, DESCRIPTION and LOCATION with the values as written, END:VEVENT and END:VCALENDAR |
| Calendar.IcsTimesReadBack | index.tsx:1130-1161 | for years of four digits, the DTSTART and DTEND lines parse back to the event's start and end |
| Calendar.IcsLinesReadBack | index.tsx:1146-1161 | the file's lines split back out when no value holds a line feed |
| Calendar.LocationIsNotText | index.tsx:1182 | the LOCATION value of every file the handler produces holds an unescaped comma, so it is not TEXT |
| Calendar.IcsEscapedReadBack | index.tsx:1146-1161 | the corrected file splits back into its lines for any title, description and location |
| Calendar.IcsEscapedValues | index.tsx:1146-1161 | in the corrected file SUMMARY, DESCRIPTION and LOCATION are TEXT exactly when the value holds no control character other than tab and line feed, and always unescape to the event's title, description and location |
| Calendar.DownloadNameShape | index.tsx:1214 | the download name keeps one character per title character (digits and lower-case letters as they are, upper-case letters lowered, everything else '_') and ends in ".ics" |
| Calendar.FileStemIdempotent | index.tsx:1214 | naming a name again changes nothing |
| Calendar.AgendaDateParts | index.tsx:1185-1187 | the event's date splits at '-' into three digit groups reading 2026, 4 and 19 for a card in the "day-1" tab, 20 for any other card |
| Widgets.ToggledExclusive | index.tsx:249-266 | after a toggle click at most one dropdown is open, and the clicked one flips |
| Widgets.ToggledTwice | index.tsx:249-266 | two clicks on one toggle restore that dropdown and leave the others closed |
| Widgets.Dropdowns.constructor | index.tsx:232-244 | every toggle starts with `aria-expanded` "false" and no dropdown is open |
| Widgets.Dropdowns.ClickToggle | index.tsx:249-266 | the open flags become the toggled flags, with `aria-expanded` in step and at most one dropdown open |
| Widgets.Dropdowns.ClickElsewhere | index.tsx:271-285 | a click outside a toggle closes every dropdown and keeps `aria-expanded` in step |
| Widgets.CalendarMenus.ClickButton | index.tsx:1227-1236 | the clicked container flips and every other container closes |
| Widgets.CalendarMenus.ChooseLink | index.tsx:1168-1249 | when the card has no content or its title holds no time range `DD:DDDD:DD`, the handler returns early and nothing changes; otherwise choosing "ical" closes every container, because the download link's click reaches the document listener outside them all, and any other choice closes that container only |
| Widgets.CalendarMenus.ClickElsewhere | index.tsx:1243-1249 | a click outside every container closes them all |
| Widgets.TabsExclusive | index.tsx:1108-1122 | after a tab click exactly the clicked button is active; with distinct ids exactly the named panel is active, and none when no panel has the name |
| Widgets.Tabs.constructor | index.tsx:1101-1106 | the button and panel flags are the page's, held in two distinct arrays, with the panels' ids |
| Widgets.Tabs.ClickTab | index.tsx:1108-1122 | the button flags become only the clicked one, and each panel is active exactly when its id is the button's `data-tab` |
| Widgets.Faq.ClickQuestion | index.tsx:938-944 | the clicked item flips, and its `aria-expanded` becomes the new state |
| Widgets.FlipTwice | index.tsx:938-944 | two clicks on a question restore the accordion |
| Widgets.ExitModal.constructor | index.tsx:954-958 | the triggers are attached exactly when the session flag is not "true" |
| Widgets.ExitModal.Trigger | index.tsx:960-991 | an attached trigger whose condition holds shows the dialog, stores the flag and detaches every trigger, so the dialog is shown at most once; any other event changes nothing |
| Widgets.ExitModal.Hide | index.tsx:969-1004 | closing hides the dialog without re-attaching triggers |
| Navigation.CurrentPage | index.tsx:173 | the current page is a non-empty name without '/': the segment after the last '/', or "index.html" when that is empty |
| Navigation.CurrentPageIsLastSegment | index.tsx:173 | the page is the last element of the path split at '/', or "index.html" when that element is empty |
| Navigation.CurrentPageExamples | index.tsx:173 | "/" and "" are the home page; "/agenda.html" and "/site/agenda.html" are "agenda.html" |
| Navigation.NavBar.Highlight | index.tsx:172-188 | a link ends up active exactly when it already was, or when a link to the current page is it or sits in the dropdown it toggles |
| FloorPlan.PackageKeyInjective | index.tsx:1291 | the lower-case class names of the packages are distinct |
| FloorPlan.CountsCoverBooths | index.tsx:1307-1311 | the available, reserved and sold counts add up to the number of booths |
| FloorPlan.BoothCounts | index.tsx:1256-1266 | the site's eighteen booths are 11 available, 2 reserved and 5 sold |
| FloorPlan.UpdateCounts | index.tsx:1307-1311 | each count text is all digits and reads back as its count, and the three add up to the number of booths |
| FloorPlan.UnfilteredShowsAll | index.tsx:1359-1366 | a filter button with no `data-filter`, or an empty one, sets the filter "all", under which no booth is hidden (line 1291) |
| FloorPlan.FilterPartition | index.tsx:1291-1293 | "all" hides nothing; a package's key shows exactly that package's booths; any other filter hides every booth |
| FloorPlan.RenderedShowsPackage | index.tsx:1282-1305 | under a package filter each rendered booth keeps its id and is visible exactly when it is of that package |
| FloorPlan.Plan.constructor | index.tsx:1268-1273 | the filter starts as "all", the script marks no filter button active, the dialog is closed, and the map shows the first render of line 1368 (every booth visible) when there is one |
| FloorPlan.Plan.RenderBooths | index.tsx:1282-1305 | with a map, the rendered booths are the views of all booths under the active filter; without one nothing changes |
| FloorPlan.Plan.ClickFilter | index.tsx:1359-1366 | the clicked button is the active one, the filter is its value or "all", and the map is re-rendered |
| FloorPlan.Plan.ClickBooth | index.tsx:1297-1301 | a sold booth opens nothing; any other booth opens the details dialog with its package, size, benefits, status and enquiry link when the page has the dialog |
| FloorPlan.Plan.ShowDetails | index.tsx:1329-1348 | without a dialog nothing changes; with one the dialog is shown holding the booth's details |
| FloorPlan.Plan.HideDetails | index.tsx:1350-1357 | the close button or the backdrop hides the dialog; without a dialog nothing changes |
| FloorPlan.Get | index.tsx:620-622 | a parameter is found exactly when some pair has that name, and its value is that of the first such pair |
| FloorPlan.FindOption | index.tsx:625 | the first option whose lower-cased value equals the lower-cased package, or none when no option matches |
| FloorPlan.BoothForm.PreFill | index.tsx:619-630 | a non-empty `package` with a matching option selects it; a non-empty `boothId` fills the booth id; otherwise nothing changes |
| FloorPlan.EnquireParams | index.tsx:1345 | the enquiry link of a booth with an alphanumeric id carries `boothId` = the id and `package` = the package's name |
| FloorPlan.EnquireRoundTrip | index.tsx:1345 | following a booth's enquiry link pre-fills the form with that booth's id, and selects that booth's package whenever the form offers it |

## Left out

- Mobile navigation (`initializeMobileNav`) and the partner-logo sections. They only toggle classes or fill in markup and decide nothing.
- DOM details beyond flags and texts are not modelled: element creation, `innerHTML` markup (the benefits `<li>` list), focusing and scrolling to the first invalid field, and the countdown animation class.
- Network, time and storage are parameters:
  - `fetch` becomes a `Response` value handed to `Resolve`;
  - the interval and the clock become a `now` argument to `Tick`;
  - `sessionStorage` becomes the stored flag.
- The timer-interval handles, and the asynchronous interleaving of several pending requests, are not modelled. Requests may be resolved in any order, and one `Resolve` models one whole response.
- The scroll trigger's percentage is floating point. `Trigger` takes whether its condition holds, rather than computing it.
- Floor-plan tooltip positioning is not modelled (mouse coordinates).
- The Google and Outlook calendar links are not modelled:
  - `encodeURIComponent`;
  - the `toISOString` stamp;
  - opening a window.

  Only the iCalendar file and its download name are modelled.
- The agenda card's title: the model checks the time range the regex looks for, and the handler's early returns. Reading the hours out of it, stripping it from the title and the `Date.UTC` construction "hour − 3" are out. The event's start and end are given as UTC date–times.
- Text.LowerChar: only ASCII letters are lowered. `toLowerCase` also lowers other letters.
- Calendar.DownloadNameShape is stated per code point. JavaScript strings are UTF-16, so a title character outside the Basic Multilingual Plane becomes two '_' in the source and one in the model.
- FloorPlan.Search: the '#' fragment is not modelled.
- FloorPlan.Decode: only '+' is decoded. Percent-escapes are not, which is enough for the alphanumeric links the site builds.
- The student form's 'other' checkbox change handler is not modelled. It shows, hides and empties the text input; the model takes the input's value as given.
- Submission.FormController.Resolve: the restored label is the form's own fixed label ("Submit Inquiry & Get Deck", "Register Now", …). The model assumes it equals the label the button had before.
- Submission.FormController.Submit: the speaker form's headshot is required only through `files.length === 0`. When the file input is missing, nothing is checked.
- Calendar.EscapeRoundTrip: a value holding a control character other than tab or line feed has no TEXT form at all, because section 3.3.11 of RFC 5545 has no escape for it; the escape keeps it, and the round trip still holds.
- Calendar.IcsEscapedValues: for the same reason the corrected file's values are TEXT only when they hold no such control character.
- The mail relay's response is ignored, because the code does not read it. Its failure is swallowed, as in the code; the `console.error` logging of that and every other failure is not modelled.

## Findings

| source | as written | input that shows it | evidently intended | confidence | as-written member | corrected member |
|---|---|---|---|---|---|---|
| index.tsx:1146-1161, 1182 | `createIcsContent` writes `SUMMARY`, `DESCRIPTION` and `LOCATION` values verbatim; the handler's location "Sheraton Grand Doha Resort & Convention Hotel, Qatar" holds a bare comma, which section 3.3.11 of RFC 5545 requires escaped as `\,` | any agenda card saved as an iCalendar file | TEXT values escaped (`\\`, `\;`, `\,`, `\n`) so calendar programs read the location, title and description back unchanged | not executed | Calendar.LocationIsNotText | Calendar.IcsEscapedValues |
