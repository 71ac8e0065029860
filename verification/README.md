# Bamboo farmer portal — booking dates, timelines and notifications in Dafny

This project models the logic core of a bamboo-farming portal. The portal is a React front end for farmers, factories and an administrator.

**The main core is the data module's date handling.**
- `parseBookingDate` turns a booking's date token into an instant. The token is either empty, the pre-formatted "today" or "tomorrow" sentinel, a Thai Buddhist-era `dd/mm/yy` short date, or free text.
- Two stable, newest-first timelines are built from it: the farmer's bookings, and the merged farmer-and-factory list the administrator sees.
- `getFarmerNotifications` builds the farmer's feed. It holds a fixed announcement, a reminder for every booking not completed and 0 to 2 days ahead, and an entry for the newest knowledge article.

**Around the core sit the small state machines of the components.**
- The application shell's sign-in and registration flow, and its choice of screen.
- The registration form: name splitting, validation, and the policy acknowledgement dialogs.
- The profile dialog's address cascade and postal-code lookup.
- The farmer area's navigation and booking creation.
- The booking page's "load more" paging.
- The dashboard's category filters.
- The notification dialog's latest/earlier split.
- The knowledge base's article lookup.

**Modules**
- `Strings`, `Numeric`, `Calendar` and `JsDate` give the JavaScript built-ins the code relies on their meanings in unbounded integers (where JavaScript would round a double, see "## Left out"):
  - `split` on one character, and `join`;
  - `parseInt(s, 10)`;
  - the proleptic Gregorian day count;
  - `new Date(y, m, d)` with `MakeFullYear`, `MakeDay` (including its range step) and `TimeClip`.
- `BookingDate` is the parser, and `BookingDateFacts` holds its properties.
- `StableSort` is `Array.prototype.sort` with the date comparator, written as a stable insertion sort.
- `Timeline` holds the two timelines.
- `Notifications` holds the feed.
- `Auth`, `Registration`, `ProfileEdit`, `FarmerView`, `BookingPage`, `Dashboard`, `NotificationPanel` and `KnowledgeBase` follow the components of the same names.

**Time**
- An instant is a `TimeValue`: `Valid(ms)` or `NaN`.
- Local time is taken to be UTC.
- The clock reading taken when the data module loads is a `Clock`: the milliseconds, and the two sentinel tokens formatted from it. The source reads the clock twice there; the model uses one reading for both (see "## Left out").
- The notifier's own clock reading is a separate `now` parameter.

**The code is followed where it departs from the natural reading.**
- The "tomorrow" sentinel is one day after the clock reading, keeping its time of day. Only "today" is set to midnight.
- A booking with an empty date parses to the epoch, which is a *valid* date. Such a booking therefore sorts last among later dates. It is reminded when `now` lies within a day or two of the epoch.
- A three-part token whose fields do not start with digits is an invalid date (NaN), not the epoch.
- With valid dates the comparator is consistent, and a stable sort's result is fully determined; the model's insertion sort gives that result. An invalid date makes the comparator return NaN, and the order is then up to the engine (see "## Left out").

## Model

| member | source | states |
|---|---|---|
| BookingDate.ParseBookingDate | data/mockData.ts:100-123 | `parseBookingDate`: an empty token is the epoch; a token that is neither empty, a sentinel, nor three `/`-parts is always a valid date; a three-part token that reads as a date is a midnight. Its cases are stated one by one by EmptyIsEpoch, TodaySentinel, TomorrowSentinel, ThreeParts, ShortDateValue, NonNumericShortDate, FreeFormToken and OnlyShortDatesAreInvalid |
| BookingDate.ReadShortDate | data/mockData.ts:106-111 | a missing field gives NaN, and any valid result is a midnight; ReadShortDateCivil and ShortDateMonotone give its value |
| BookingDate.TodayMidnight | data/mockData.ts:86-87 | "today" is midnight of the clock reading's day: a whole number of days, at most the reading and less than a day before it |
| BookingDateFacts.EmptyIsEpoch | data/mockData.ts:101 | an empty token gives the epoch, instant 0 |
| BookingDateFacts.TodaySentinel | data/mockData.ts:86-87 | the today sentinel gives a valid midnight within a day before the reading; any clock reading on the same day gives the same instant |
| BookingDateFacts.TomorrowSentinel | data/mockData.ts:90-91 | the tomorrow sentinel gives exactly the reading plus one day; it is midnight iff the reading was |
| BookingDateFacts.ThreeParts | data/mockData.ts:106-111 | an ordinary token with three `/` parts whose fields parse is read by the date constructor on those numbers |
| BookingDateFacts.ReadShortDateCivil | data/mockData.ts:108-111 | for an in-range day and month, the Buddhist-era fields give midnight of civil date (yy + 2500 − 543)-mm-dd |
| BookingDateFacts.ShortDateValue | data/mockData.ts:106-111 | a `dd/mm/yy` token with in-range day and month is midnight of that civil date |
| BookingDateFacts.FourteenJuly2568 | data/mockData.ts:129 | '14/07/68' parses to 14 July 2025, 00:00 UTC |
| BookingDateFacts.ShortDateMonotone | data/mockData.ts:106-111 | short dates earlier in (yy, mm, dd) order parse to strictly earlier valid instants |
| BookingDateFacts.NonNumericShortDate | data/mockData.ts:110-111 | a three-part token with a field `parseInt` cannot read is NaN, not the epoch |
| BookingDateFacts.FreeFormToken | data/mockData.ts:114-122 | a token without exactly two slashes goes to the free-form parser, and to the epoch when that fails |
| BookingDateFacts.OnlyShortDatesAreInvalid | data/mockData.ts:100-123 | the parser never fails except with NaN, and NaN comes only from a three-part token or from a tomorrow beyond the time range |
| Numeric.ParseIntSign | data/mockData.ts:110-111 | `parseInt(s, 10)` reads a number only when the first non-blank character is a digit or a sign, and a negative number only after a minus; ParseIntNaN, ParseDigits, LeadingZero, ParseDecimal and ParseNegativeDecimal give its value |
| Numeric.ParseIntNaN | data/mockData.ts:110-111 | `parseInt` is NaN exactly when no digit follows the white space and the optional sign |
| Numeric.ParseDigits | data/mockData.ts:110-111 | a non-empty run of digits parses to its decimal value, leading zeros included |
| Numeric.ParseDecimal | features/farmer/FarmerView.tsx:64 | `parseInt` reads back a rendered natural number, whatever non-digit text follows |
| Numeric.ParseNegativeDecimal | data/mockData.ts:110-111 | `parseInt` reads a minus sign followed by a rendered number as its negation |
| Numeric.LeadingZero | data/mockData.ts:110-111 | a leading zero does not change what `parseInt` reads, as in the field '07' |
| Numeric.DecimalString | features/farmer/FarmerView.tsx:64 | the rendering of a number is a non-empty run of digits whose value is the number |
| JsDate.NewDate | data/mockData.ts:111 | `new Date(y, m, d)`: a NaN field gives NaN, and every valid result is a midnight; NewDateCivil, MonthRollOver and DayZeroRollsBack give its value |
| JsDate.MakeDay | data/mockData.ts:111 | the day exists exactly when the first of its (rolled-over) month lies within 100 000 000 days of the epoch, and then it counts on from that first day |
| JsDate.FarYearIsInvalid | data/mockData.ts:111 | a year beyond the range is NaN even when the day count brings the sum back to 11 January 1970 |
| JsDate.TimeClip | data/mockData.ts:111 | times within ±8.64e15 ms are kept and all others become NaN |
| JsDate.MakeFullYear | data/mockData.ts:109-111 | the constructor reads years 0 to 99 as 1900 to 1999 and any other year literally |
| JsDate.NewDateCivil | data/mockData.ts:111 | for an in-range month and day, `new Date(y, m, d)` is midnight of that civil date, or NaN when the month's first day is out of range |
| JsDate.MonthRollOver | data/mockData.ts:111 | month 12 of a year is January of the next |
| JsDate.DayZeroRollsBack | data/mockData.ts:111 | day 0 of a month is the last day of the month before (within the range) |
| Calendar.EpochIsDayZero | data/mockData.ts:101 | 1 January 1970 is day 0 of the count |
| Calendar.CivilMonotone | data/mockData.ts:111 | for valid dates, calendar order is day-number order |
| Calendar.CivilInjective | data/mockData.ts:111 | distinct valid dates have distinct day numbers |
| Strings.Split | data/mockData.ts:106-107 | `split` gives one more piece than there are separators, and no piece holds a separator |
| Strings.JoinSplit | features/auth/FarmerRegistration.tsx:69-71 | joining the pieces of a split with the separator gives back the string |
| Strings.SplitJoin | features/auth/FarmerRegistration.tsx:69-71 | splitting a join of separator-free pieces gives back the pieces |
| StableSort.Insert | data/mockData.ts:146 | one insertion step adds exactly one element: same contents plus it |
| StableSort.Sort | data/mockData.ts:146 | the sorted sequence is a permutation of the input |
| StableSort.SortDescending | data/mockData.ts:146 | with valid dates, the sorted sequence is non-increasing by date |
| StableSort.SortStable | data/mockData.ts:146 | the elements sharing any date keep their input order (this matches the program when every date is valid) |
| StableSort.SortSorted | data/mockData.ts:146 | an already non-increasing sequence of valid dates is unchanged |
| StableSort.SortIdempotent | data/mockData.ts:146 | re-sorting a sorted sequence of valid dates changes nothing |
| StableSort.SortPair | data/mockData.ts:146 | two elements swap exactly when the second has the strictly later valid date |
| StableSort.WithKeyAppend | data/mockData.ts:154 | the elements of one date in a concatenation are those of the first part, then those of the second |
| Timeline.FarmerBookings | data/mockData.ts:146 | `farmerBookings` holds exactly the unsorted bookings; FarmerTimeline, TimelineIdempotent and EmptyDatesSinkToBottom give its order |
| Timeline.AdminBookings | data/mockData.ts:154 | `allAdminBookings` holds exactly the farmer and factory bookings; AdminTimeline, SameDateFarmerFirst, LaterFirst and LaterDateFirst give its order |
| Timeline.FarmerTimeline | data/mockData.ts:128-146 | `farmerBookings` is a permutation of the unsorted list, non-increasing by date when every date is valid |
| Timeline.AdminTimeline | data/mockData.ts:154 | `allAdminBookings` is a permutation of the farmer and factory lists, non-increasing when dates are valid; for each date it holds the farmer bookings first, then the factory ones, each in its own order (this matches the program when every date is valid) |
| Timeline.TimelineIdempotent | data/mockData.ts:146 | sorting the sorted farmer list again gives the same list |
| Timeline.EmptyDatesSinkToBottom | data/mockData.ts:100-146 | an empty-dated booking is followed only by empty-dated bookings when every other date is after the epoch |
| Timeline.SameDateFarmerFirst | data/mockData.ts:148-154 | a farmer and a factory booking with the same token, such as '14/07/68', keep the farmer booking first |
| Timeline.LaterFirst | data/mockData.ts:154 | of two bookings, the later valid date comes first whichever list it came from |
| Timeline.LaterDateFirst | data/mockData.ts:141-154 | '10/07/68' is placed before '09/07/68' |
| Notifications.FarmerNotifications | data/mockData.ts:205-255 | `getFarmerNotifications` starts with the announcement and has at most two entries besides the reminders; FeedShape, DueIff, RemindersMembers, RemindersAppend and FeedIdsDistinct give its contents |
| Notifications.CeilDiv | data/mockData.ts:225 | `Math.ceil(a / b)` for positive b is the q with b(q − 1) < a ≤ bq |
| Notifications.ReminderWindow | data/mockData.ts:225-227 | 0 ≤ ceil((t − now) / day) ≤ 2 holds exactly when now − 1 day < t ≤ now + 2 days |
| Notifications.DueIff | data/mockData.ts:222-227 | a booking is reminded iff its date is valid, it is not completed, and it lies in (now − 1 day, now + 2 days] |
| Notifications.WindowEdges | data/mockData.ts:225-227 | a pending booking exactly 2 days ahead is reminded, one 3 days ahead is not, and a completed one never is |
| Notifications.EmptyDateReminder | data/mockData.ts:221-227 | an empty-dated booking that is not completed is reminded iff now is within 2 days before to 1 day after the epoch |
| Notifications.Reminders | data/mockData.ts:221-238 | there are at most as many reminders as bookings |
| Notifications.RemindersMembers | data/mockData.ts:221-237 | every due booking has its reminder, and every reminder is that of a due booking |
| Notifications.RemindersAppend | data/mockData.ts:221 | reminders follow the booking input order: those of a concatenation are those of each part in turn |
| Notifications.FeedShape | data/mockData.ts:205-255 | the feed is the unread announcement, then the unread reminders in booking order, then a read entry for `articles[0]` exactly when there are articles; nothing is re-sorted |
| Notifications.RemindersDistinct | data/mockData.ts:229 | distinct booking ids give reminders with distinct ids |
| Notifications.FeedIdsDistinct | data/mockData.ts:210-252 | with distinct booking ids, every feed entry has its own id |
| Auth.Initial | App.tsx:31-33 | the shell starts loading, with no role and no registration |
| Auth.Mount | App.tsx:46-55 | a stored session signs its role in; without one the user is signed out and the role is kept; nothing but role and status changes |
| Auth.SelectRole | App.tsx:59-70 | choosing farmer signs in at once and stores the session; factory or admin only records the role; registration and policy texts are untouched |
| Auth.StartRegistration | App.tsx:72-74 | the registration flow starts at the form, as the retry button (line 118) also does; nothing else changes |
| Auth.TestNotApproved | App.tsx:76-78 | the test button shows the not-approved screen; nothing else changes |
| Auth.RegistrationSubmit | App.tsx:88-91 | submitting shows the pending-approval screen; nothing else changes |
| Auth.LoginSuccess | App.tsx:80-86 | login signs in and stores the recorded role, changing nothing but status and session; with no role nothing changes |
| Auth.Logout | App.tsx:93-98 | logout clears the session, role and registration, signs out, and keeps the policy texts |
| Auth.BackToRoleSelector | App.tsx:100-103 | going back clears role and registration and changes nothing else |
| Auth.UpdatePolicies | App.tsx:39-43 | saving policies replaces both texts and nothing else |
| Auth.RenderView | App.tsx:106-173 | spinner iff loading; the registration screen iff signed out with a registration; login iff signed out, no registration, and a factory or admin role; home screens only when signed in; the admin home shows the current policies |
| Auth.StepConsistent | App.tsx:46-103 | every handler a screen offers keeps the shell invariant: a stored session iff signed in, and a signed-in role equal to the stored one |
| Auth.RunConsistent | App.tsx:46-103 | the invariant survives any sequence of user actions |
| Auth.SignedInSeesHome | App.tsx:141-163 | in a consistent state a signed-in user gets the home screen of their role |
| Auth.ReachableSignedInSeesHome | App.tsx:154-162 | after any actions from start-up, the null-role fallback is never shown to a signed-in user |
| Auth.MountScreens | App.tsx:46-173 | start-up with a stored role lands on its home screen, and without one on the role chooser |
| Auth.LogoutShowsChooser | App.tsx:93-139 | after logout the role chooser is shown |
| Auth.BackFromLoginShowsChooser | App.tsx:100-139 | going back from the login screen shows the role chooser |
| Auth.ChooseRoleScreens | App.tsx:59-143 | choosing farmer leads to the farmer home, and factory or admin to that role's login |
| Registration.SplitName | features/auth/FarmerRegistration.tsx:67-73 | no name or an empty name gives two empty parts; the last name never holds a space |
| Registration.SplitNameRoundTrip | features/auth/FarmerRegistration.tsx:69-72 | for a name with a space, first name, a space and last name give back the name |
| Registration.SplitNameSingleWord | features/auth/FarmerRegistration.tsx:69-72 | a name without a space is all last name |
| Registration.SplitNameAtLastSpace | features/auth/FarmerRegistration.tsx:69-72 | the split is at the final space: any first name, a space and a space-free last name split back into those parts |
| Registration.InitialForm | features/auth/FarmerRegistration.tsx:75-86 | the form opens with the split display name, no acknowledgements and no dialog |
| Registration.ChangeField | features/auth/FarmerRegistration.tsx:92-94 | an edit sets the named field and leaves the other fields, acknowledgements and dialog alone |
| Registration.SubmitGate | features/auth/FarmerRegistration.tsx:96-103 | submission happens iff title, first name, last name and phone are filled and both policies acknowledged; the e-mail is irrelevant |
| Registration.ClickPrivacy | features/auth/FarmerRegistration.tsx:228 | the privacy item opens its dialog unless already acknowledged, when nothing happens |
| Registration.ClickTerms | features/auth/FarmerRegistration.tsx:233 | the terms item opens its dialog unless already acknowledged |
| Registration.CloseModal | features/auth/FarmerRegistration.tsx:273 | closing the dialog keeps the form and acknowledgements |
| Registration.AcceptPolicy | features/auth/FarmerRegistration.tsx:105-111 | accepting acknowledges only the open dialog's policy; with none open nothing changes |
| Registration.ModalTitle | features/auth/FarmerRegistration.tsx:113-117 | the title is empty iff no dialog is open |
| Registration.ModalContent | features/auth/FarmerRegistration.tsx:119-123 | the content is the open policy's text, and empty with none open |
| Registration.AcksMonotone | features/auth/FarmerRegistration.tsx:105-111 | an acknowledgement is never withdrawn, whatever the user does |
| Registration.PrivacyNeedsAccept | features/auth/FarmerRegistration.tsx:105-111 | the privacy acknowledgement only appears after an accept while the privacy dialog was open |
| ProfileEdit.SetTopField | features/farmer/ProfileEditModal.tsx:89 | a top-level edit sets that property, leaves all others and the address unchanged |
| ProfileEdit.ChangeField | features/farmer/ProfileEditModal.tsx:84-91 | a name the address has updates the address, and any other name updates the top level only |
| ProfileEdit.AddressChange | features/farmer/ProfileEditModal.tsx:93-107 | province clears district, subdistrict and postal code; district keeps the province and clears the two below; subdistrict changes only itself; nothing outside the four levels changes |
| ProfileEdit.PostalCodeFor | features/farmer/ProfileEditModal.tsx:76-81 | the postal code is the table's entry for a fully chosen address, and empty when a level is empty or the lookup misses |
| ProfileEdit.DistrictOptions | features/farmer/ProfileEditModal.tsx:54-62 | no district choices without a province; otherwise the table's districts of that province |
| ProfileEdit.SubdistrictOptions | features/farmer/ProfileEditModal.tsx:64-72 | no subdistrict choices unless both province and district are chosen |
| ProfileEdit.SettlePostalCode | features/farmer/ProfileEditModal.tsx:74-82 | the effect makes the postal code agree with the table and changes nothing else |
| ProfileEdit.ApplyKeepsPostalCode | features/farmer/ProfileEditModal.tsx:74-107 | whatever is typed or picked, the postal code keeps agreeing with the table |
| ProfileEdit.PickingFillsPostalCode | features/farmer/ProfileEditModal.tsx:74-107 | picking a listed province, district and subdistrict in turn fills in that postal code, empty until the last pick |
| ProfileEdit.ProvinceResets | features/farmer/ProfileEditModal.tsx:54-100 | re-picking the province empties the postal code and the subdistrict choices and recomputes the districts |
| ProfileEdit.SessionKeepsPostalCode | features/farmer/ProfileEditModal.tsx:47-112 | a dialog opened on a consistent profile saves a profile whose postal code agrees with the table |
| FarmerView.InitialFarmer | features/farmer/FarmerView.tsx:30-36 | the farmer area opens on the dashboard with nothing selected and both panels closed |
| FarmerView.BookingIdRoundTrip | features/farmer/FarmerView.tsx:64 | a new booking's id splits at its dash into `b` + (count + 1) and the clock reading, both readable back |
| FarmerView.BookingIdInjective | features/farmer/FarmerView.tsx:64 | distinct (count, clock reading) pairs give distinct ids |
| FarmerView.AddBooking | features/farmer/FarmerView.tsx:62-72 | adding puts one pending farmer booking with the submitted description and date, in the profile's full name, in front of the unchanged list; nothing else changes |
| FarmerView.AddTwice | features/farmer/FarmerView.tsx:62-72 | two additions stack newest first above the original list, with different ids |
| FarmerView.NavClick | features/farmer/FarmerView.tsx:44-48 | navigation shows the page, forgets the article, closes the menu, and keeps bookings and profile |
| FarmerView.SelectArticle | features/farmer/FarmerView.tsx:51-54 | picking an article records its id and opens the knowledge page, changing nothing else |
| FarmerView.ViewBookingDetails | features/farmer/FarmerView.tsx:57-59 | viewing a booking only records it as selected |
| FarmerView.UpdateProfile | features/farmer/FarmerView.tsx:75-77 | the saved profile replaces the old one, changing nothing else |
| FarmerView.NewNameOnNextBooking | features/farmer/FarmerView.tsx:62-77 | after a profile update the next booking carries the new first and last name |
| FarmerView.NavigationClearsArticle | features/farmer/FarmerView.tsx:44-54 | picking an article then navigating anywhere forgets it |
| Domain.FullName | features/farmer/FarmerView.tsx:68 | the display name is the first name, one space, and the last name |
| BookingPage.InitialPage | features/farmer/FarmerBookingPage.tsx:19-21 | the page opens with the dialog closed and 8 rows visible |
| BookingPage.LoadMore | features/farmer/FarmerBookingPage.tsx:24-26 | each "load more" adds exactly 5 rows |
| BookingPage.Displayed | features/farmer/FarmerBookingPage.tsx:51 | the rows shown are the prefix of length min(visible, count) |
| BookingPage.ShowLoadMore | features/farmer/FarmerBookingPage.tsx:54 | the button shows iff some booking is hidden |
| BookingPage.LoadMoreTimes | features/farmer/FarmerBookingPage.tsx:24-26 | k loads add 5k rows |
| BookingPage.LoadMoreExtends | features/farmer/FarmerBookingPage.tsx:24-51 | loading more only extends what is shown |
| BookingPage.EnoughLoadsShowAll | features/farmer/FarmerBookingPage.tsx:21-54 | ceil((n − 8) / 5) loads show all n bookings and hide the button, and one fewer does not |
| BookingPage.OpenModal | features/farmer/FarmerBookingPage.tsx:43 | the create button opens the dialog and keeps the paging |
| BookingPage.CloseModal | features/farmer/FarmerBookingPage.tsx:68 | the dialog's close button closes it and keeps the paging |
| BookingPage.ConfirmBooking | features/farmer/FarmerBookingPage.tsx:29-32 | confirming hands the request to the farmer area's add handler and closes the dialog |
| BookingPage.ConfirmedBookingShownFirst | features/farmer/FarmerBookingPage.tsx:29-51 | a confirmed booking is the first row shown |
| Dashboard.Dedup | features/farmer/FarmerDashboard.tsx:119 | the distinct values: the same members, each once |
| Dashboard.DedupOrder | features/farmer/FarmerDashboard.tsx:119 | the distinct values keep the order of their first appearances |
| Dashboard.Filters | features/farmer/FarmerDashboard.tsx:119-120 | the filter bar is the all-categories filter, then exactly the articles' categories |
| Dashboard.InitialFilter | features/farmer/FarmerDashboard.tsx:116-120 | the dashboard opens on the first filter, which shows every published article |
| Dashboard.FilteredArticles | features/farmer/FarmerDashboard.tsx:123-125 | an article is shown iff it is published and in the active category, or any category for the all filter |
| Dashboard.FilteredSubsequence | features/farmer/FarmerDashboard.tsx:123-125 | the shown articles are an order-preserving subsequence of all articles |
| Dashboard.FilterAppend | features/farmer/FarmerDashboard.tsx:123-125 | filtering a concatenation filters each part in turn |
| Dashboard.CategoryWithinAll | features/farmer/FarmerDashboard.tsx:119-125 | a category shows part of what the all filter shows, and the bar's categories together show all of it |
| Dashboard.UnknownFilterEmpty | features/farmer/FarmerDashboard.tsx:123-125 | a filter naming no article's category shows nothing |
| Dashboard.NewsGrid | features/farmer/FarmerDashboard.tsx:90-107 | one card per shown article, in order, with its id, title, content and date; the picture is present iff the image address is non-empty, and is that address |
| Dashboard.GridPictures | features/farmer/FarmerDashboard.tsx:90-96 | every shown article with an image address has a card with that picture, and every picture belongs to a published article of the active category |
| NotificationPanel.Members | components/NotificationSidebar.tsx:16-17 | the latest section holds exactly the entries flagged latest, the earlier section exactly the others |
| NotificationPanel.SectionsInOrder | components/NotificationSidebar.tsx:16-17 | each section keeps the input order |
| NotificationPanel.Partition | components/NotificationSidebar.tsx:16-17 | together the sections hold every entry as often as the input does |
| NotificationPanel.PartitionSizes | components/NotificationSidebar.tsx:16-17 | the sections' sizes add up to the number of entries |
| NotificationPanel.Disjoint | components/NotificationSidebar.tsx:16-17 | no entry is in both sections |
| NotificationPanel.LatestAppend | components/NotificationSidebar.tsx:16 | the latest section of a concatenation is that of each part in turn |
| NotificationPanel.PreviousAppend | components/NotificationSidebar.tsx:17 | the earlier section of a concatenation is that of each part in turn |
| NotificationPanel.Render | components/NotificationSidebar.tsx:20-78 | nothing iff closed; each section shows iff some entry belongs to it; the empty message shows iff neither does |
| KnowledgeBase.Find | components/KnowledgeBasePage.tsx:21 | a found article is in the list with the id; nothing found means no article has it |
| KnowledgeBase.FindFirst | components/KnowledgeBasePage.tsx:21 | the found article is the first with its id |
| KnowledgeBase.FindArticleById | components/KnowledgeBasePage.tsx:19-22 | no id or an empty id finds nothing; otherwise the article with that id, or nothing when none has it |
| KnowledgeBase.PageArticles | features/farmer/FarmerView.tsx:107 | the page receives exactly the published articles |
| KnowledgeBase.Derive | components/KnowledgeBasePage.tsx:25-30 | the selection is re-derived from the handed-over id |
| KnowledgeBase.SelectFromList | components/KnowledgeBasePage.tsx:69 | clicking a listed article shows it |
| KnowledgeBase.GoBack | components/KnowledgeBasePage.tsx:33-38 | going back shows the list, and tells the parent iff it gave a callback |
| KnowledgeBase.OpenedById | components/KnowledgeBasePage.tsx:25-30 | when the farmer area holds an article id, the page shows the published article with that id, and nothing when there is none (no page of the program sets that id; see "## Left out") |
| KnowledgeBase.GoBackStaysOnList | components/KnowledgeBasePage.tsx:28-38 | after going back, or after navigating, deriving the selection again keeps the list shown |

## Left out

- Locale formatting of the sentinel tokens (`toLocaleDateString('th-TH')`): the two tokens are fields of `Clock`, because the output depends on the locale data. The "next week" token is not used by the modelled code.
- Free-form `new Date(text)` parsing: it is implementation-defined, so it is a parameter `fallback: string -> Option<int>`, with None for an invalid date. A faithful oracle also returns None for any instant outside `JsDate.TimeClip`'s range (±8.64e15 ms), since `new Date(text)` yields a clipped time value or NaN; the model does not enforce this on the parameter.
- BookingDate.Tomorrow: the source reads the clock twice, once for `today` and once for `tomorrow`, and sets tomorrow's day of the month to today's plus one. The model takes both sentinels from one reading. If the two readings straddle midnight at the end of a month, the source's tomorrow is day d + 1 of the new month, d being the old month's last day. For example, 31 January then 1 February gives 32 February, which is 4 March in a common year. The model's tomorrow is 1 February.
- StableSort.Sort: when some date is invalid the comparator returns NaN, which is not a consistent comparator in the sense of ECMA-262, so the sort order is engine-defined. The model keeps the insertion-sort order, in which an invalid date never moves past another element. `SortStable`, and the per-date part of `Timeline.AdminTimeline`, describe the program only when every date is valid.
- JsDate.MakeDay: the range step follows ECMA-262: the first day of the month must itself be a time value, within 100 000 000 days of the epoch. Engines may apply a different bound first (a year limit, for instance), so for fields of such a size (years far beyond 275 000) the result may differ from a given engine.
- Numeric.ParseInt: the value is exact. JavaScript rounds a `parseInt` result above 2^53 to a double, and the model does not; such fields are far outside the date range anyway.
- Time zones and daylight saving: local time is UTC, so "midnight" is 00:00 UTC and "tomorrow" is exactly 86 400 000 ms later.
- Wall-clock reads: the module-load reading is `Clock.now`, the notifier's reading is `now`, and `Date.now()` in a new booking's id is `stamp`. Ids are not shown unique when two clock readings are equal.
- Notifications.DaysUntil: the day difference is an exact integer ceiling rather than a floating-point division. The two agree wherever the result could fall in the 0 to 2 window: rounding can only move the quotient across an integer when it is about 10^8 days or more.
- The stored session (`localStorage`, `JSON.parse`) is the role it records. The confirmation `alert` after saving policies is not modelled.
- JSX, styling, icons, and the child components this core only calls: role selector, login, factory and admin views, booking list and dialog, policy dialog, searchable select.
- Registration.AcceptPolicy: what the policy dialog itself does after calling the accept handler (for instance closing) belongs to that dialog, which is not part of this model.
- The Thai address data: it is an abstract nested map, `AddressTable`. Property names that JavaScript objects inherit (such as `constructor`) are not modelled as lookups.
- ProfileEdit.ChangeField: requires that the input name is not `address`. No input of the dialog has that name, and the program would replace the whole address object with a string.
- ProfileEdit.Apply: only the events the dialog's enabled inputs can send. The postal code input is disabled, and the three address levels go through the pickers.
- ProfileEdit.Apply: recomputes the postal code after every pick. React runs the postal-code effect (ProfileEditModal.tsx:74-82) only when one of the three level values changes, so re-picking the current subdistrict in a form whose postal code disagrees with the table leaves the program's code alone while the model rewrites it. From a postal-consistent form, which `SessionKeepsPostalCode` assumes, the two agree.
- FarmerView.SelectArticle: the handler (FarmerView.tsx:51-54) is passed to no child component, so in the program `selectedArticleId` stays None and the knowledge page always opens on its list; the model keeps the handler and `KnowledgeBase.OpenedById` states what it would do.
- The order of `Object.keys` for the district and subdistrict choices: the choices are sets.
- React effect scheduling and re-render timing:
  - derived values (option lists, postal code, the knowledge page's selection) are functions of the state, applied after each event;
  - the profile dialog's open effect is `Open`.
  - The knowledge page receives a freshly filtered array on every render of the farmer area, so its selection effect re-runs then. `Derive` is that re-derivation.
- The mock records themselves: they serve only as examples ('14/07/68', '09/07/68' and '10/07/68').
- Month and day roll-over in `new Date`: the calendar lemmas are stated for in-range days and months. `MonthRollOver` and `DayZeroRollsBack` show the two roll-overs the constructor performs.
