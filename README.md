# E-learning client: screen-time session and course listing, in Dafny

This project models the three pieces of logic in the E-learning web client that
are more than presentation:

- the **screen-time slice** (`client/src/redux/screenTimeSlice.js`): the Redux
  state of a user's screen-time session — when the current window started, the
  total time reported so far, the last break, whether a break alert is showing
  and whether a session is active — and its six case reducers
  (`startScreenTimeTracking`, `updateScreenTime`, `resetScreenTime`,
  `setBreakAlertShown`, `takeBreak`, `endSession`);
- the **course catalogue page** (`client/src/pages/Courses.jsx`): the
  case-insensitive search over title, subtitle and description combined with the
  category select, the category list built from the fetched courses, the cards
  shown, and the Clear Filters button;
- the **home page** (`client/src/pages/Home.jsx`): the first six courses, each
  turned into a card.

Files:

- `js_values.dfy` (module `JsValues`): JavaScript strings as sequences of UTF-16
  code units (`JsText`), so that `length`, indices and `slice` count what
  JavaScript counts; optional values (`null`/`undefined`); completions that
  throw a `TypeError`; JavaScript truthiness.
- `js_string.dfy` (module `JsString`): `toLowerCase` on ASCII letters and
  `includes` as "is a substring of".
- `js_array.dfy` (module `JsArray`): subsequences, duplicate-freedom, first
  occurrence, and `[...new Set(xs)]` as `Distinct`.
- `screen_time.dfy` (module `ScreenTime`): the session state as a value, the
  slice's reducer `Reduce` as a pure function of state and action, and the class
  `ScreenTimeSlice`, whose fields are the five state fields and whose methods are
  the case reducers assigning them in place; each method is proved to produce
  `Reduce` of the old state.
- `course_card.dfy` (module `CourseCard`): the course record, the card record and
  `formatCourseForCard`. The home page and the catalogue page each define this
  function with an identical body (`Courses.jsx:66-76`, `Home.jsx:43-53`); the
  model defines it once and both pages use it.
- `courses_page.dfy` (module `CoursesPage`) and `home_page.dfy` (module
  `HomePage`).

`Date.now()` is the parameter `now`; the course list, the search term and the
selected category (React state on the page) are plain inputs.

### Where the documented design and the code differ

The model follows the code:

- `startScreenTimeTracking` does not set `lastBreakTime`.
- `resetScreenTime`, `setBreakAlertShown` and `takeBreak` have no
  `sessionActive` guard. Applied to an inactive session they leave a window
  start or a pending alert without an active session
  (`UnguardedTakeBreakLeavesStartedWhileInactive`,
  `UnguardedAlertWhileInactive`). So "window start set if and only if active"
  and "alert only while active" are not invariants. What is invariant is
  `Consistent`: an active session has a window start, an inactive session has a
  zero total, and a recorded break implies a window start.
- `updateScreenTime` takes any payload, so the total can go down
  (`UpdateCanLowerTotal`).
- Its guard is the truthiness of `screenTimeStarted`, so a session whose window
  started at time 0 ignores every update (`SessionStartedAtZeroIgnoresUpdates`).
- `resetScreenTime` also moves `screenTimeStarted` to `now`.

## Model

| member | source | states |
|---|---|---|
| `ScreenTime.InitialState` | client/src/redux/screenTimeSlice.js:3-9 | the initial state has no timestamps, a zero total, no alert and no active session, and is consistent |
| `ScreenTime.Reduce` | client/src/redux/screenTimeSlice.js:11-50 | every action maps a consistent state to a consistent state |
| `ScreenTime.StartFromInactive` | client/src/redux/screenTimeSlice.js:15-22 | starting an inactive session makes it active with the window starting now, a zero total and no alert, and leaves `lastBreakTime` as it was |
| `ScreenTime.StartIdempotent` | client/src/redux/screenTimeSlice.js:16-21 | starting an active session changes nothing, so two starts equal one |
| `ScreenTime.UpdateOnlyTouchesTotal` | client/src/redux/screenTimeSlice.js:23-27 | the total becomes the payload when the session is active and the window start truthy; otherwise the state is unchanged; no other field ever changes |
| `ScreenTime.ResetSetsWindow` | client/src/redux/screenTimeSlice.js:28-33 | reset zeroes the total, sets both timestamps to now, clears the alert and keeps the activity flag |
| `ScreenTime.SetAlertOnlyTouchesAlert` | client/src/redux/screenTimeSlice.js:34-36 | the alert flag becomes the payload and nothing else changes |
| `ScreenTime.TakeBreakRestartsWindow` | client/src/redux/screenTimeSlice.js:37-41 | a break sets both timestamps to now and clears the alert, keeping the total and the activity flag |
| `ScreenTime.EndSessionRestoresInitial` | client/src/redux/screenTimeSlice.js:42-48 | ending from any state gives exactly the initial state, and ending twice equals ending once |
| `ScreenTime.LateUpdateAfterEndIgnored` | client/src/redux/screenTimeSlice.js:23-48 | an update dispatched after the session ended leaves the initial state |
| `ScreenTime.DispatchAllKeepsConsistent` | client/src/redux/screenTimeSlice.js:15-48 | any sequence of dispatched actions keeps the state consistent |
| `ScreenTime.OnlyStartActivates` | client/src/redux/screenTimeSlice.js:15-48 | an inactive session stays inactive under any actions that do not include a start |
| `ScreenTime.UnguardedTakeBreakLeavesStartedWhileInactive` | client/src/redux/screenTimeSlice.js:37-41 | a break taken with no session sets the window start while the session stays inactive |
| `ScreenTime.UnguardedAlertWhileInactive` | client/src/redux/screenTimeSlice.js:34-36 | the alert can be set while no session is active |
| `ScreenTime.UpdateCanLowerTotal` | client/src/redux/screenTimeSlice.js:23-27 | a later, smaller payload lowers the total |
| `ScreenTime.SessionStartedAtZeroIgnoresUpdates` | client/src/redux/screenTimeSlice.js:24 | a session started at time 0 is active but ignores updates |
| `ScreenTime.ScreenTimeSlice.constructor` | client/src/redux/screenTimeSlice.js:3-13 | the store starts in the initial state |
| `ScreenTime.ScreenTimeSlice.StartScreenTimeTracking` | client/src/redux/screenTimeSlice.js:15-22 | the fields after the in-place update are `Reduce` of the old state with the start action; consistency is kept |
| `ScreenTime.ScreenTimeSlice.UpdateScreenTime` | client/src/redux/screenTimeSlice.js:23-27 | the fields after the update are `Reduce` of the old state with the update action; consistency is kept |
| `ScreenTime.ScreenTimeSlice.ResetScreenTime` | client/src/redux/screenTimeSlice.js:28-33 | the fields after the update are `Reduce` of the old state with the reset action; consistency is kept |
| `ScreenTime.ScreenTimeSlice.SetBreakAlertShown` | client/src/redux/screenTimeSlice.js:34-36 | the fields after the update are `Reduce` of the old state with the alert action; consistency is kept |
| `ScreenTime.ScreenTimeSlice.TakeBreak` | client/src/redux/screenTimeSlice.js:37-41 | the fields after the update are `Reduce` of the old state with the break action; consistency is kept |
| `ScreenTime.ScreenTimeSlice.EndSession` | client/src/redux/screenTimeSlice.js:42-48 | the fields after the update are the initial state |
| `ScreenTime.ScreenTimeSlice.Dispatch` | client/src/redux/screenTimeSlice.js:52-61 | routing an action to its case reducer yields `Reduce` of the old state and keeps consistency |
| `CourseCard.ExcerptCountsCodeUnits` | client/src/pages/Courses.jsx:70 | the 120-unit excerpt counts code units, so it can end in a high surrogate whose low half was cut off |
| `CourseCard.CardsOf` | client/src/pages/Courses.jsx:166-168 | `map(formatCourseForCard)` gives one card per course, the i-th card being the card of the i-th course |
| `CoursesPage.CategoriesOf` | client/src/pages/Courses.jsx:47 | `map(course => course.category)` gives one entry per course, the i-th being the i-th course's category |
| `CourseCard.FormatCourseForCard` | client/src/pages/Courses.jsx:66-76 | id, title and category are copied; the description is the subtitle if non-empty, else the description's first 120 UTF-16 code units if non-empty, else the fixed text, and is never empty; the image falls back to the placeholder; the counts are the array lengths, or 0 when an array is absent |
| `CoursesPage.FilterCourses` | client/src/pages/Courses.jsx:78-94 | the result is a subsequence of the courses in the original order, and holds every matching course with all its occurrences and no other course |
| `CoursesPage.FilterKeepsExactlyMatches` | client/src/pages/Courses.jsx:80-92 | a course is shown if and only if it is in the list, the lower-cased term is a substring of its lower-cased title, subtitle or description, and the category condition holds |
| `CoursesPage.FilterHonoursSelectedCategory` | client/src/pages/Courses.jsx:90 | with a category other than "" and "all", every shown course has that category |
| `CoursesPage.FilterKeepsAllWhenUnconstrained` | client/src/pages/Courses.jsx:90-92 | an empty term with category "" or "all" shows every course |
| `CoursesPage.FilterCoursesAsWritten` | client/src/pages/Courses.jsx:83-88 | the code as written completes normally only if every course has a subtitle and a description |
| `CoursesPage.AsWrittenThrowsIffTextFieldMissing` | client/src/pages/Courses.jsx:79-93 | the code as written throws if and only if some course lacks a subtitle or a description, and otherwise returns the same list as `FilterCourses` |
| `CoursesPage.MissingTextFieldThrows` | client/src/pages/Courses.jsx:66-93 | for a course without subtitle and description the card shows the fallback text, the code as written throws, and `FilterCourses` shows the course with an empty search and no category |
| `CoursesPage.ClearFilters` | client/src/pages/Courses.jsx:154-157 | clearing empties the search term and the selected category |
| `CoursesPage.ClearFiltersShowsAll` | client/src/pages/Courses.jsx:148-157 | after clearing, every course is shown and the Clear Filters button is gone; when at least one course was fetched, the "No courses found" panel is gone too |
| `CoursesPage.VisibleCards` | client/src/pages/Courses.jsx:164-168 | one card per shown course, in filter order, each the card of a matching course |
| `CoursesPage.NonEmptyNames` | client/src/pages/Courses.jsx:48 | `filter(Boolean)` keeps exactly the present, non-empty names and adds no duplicates |
| `CoursesPage.NonEmptyNamesKeepOrder` | client/src/pages/Courses.jsx:48 | the kept names stay in their relative order |
| `CoursesPage.UniqueCategories` | client/src/pages/Courses.jsx:47-48 | the category list has no duplicates and holds exactly the non-empty categories of the courses |
| `CoursesPage.UniqueCategoriesInFirstOccurrenceOrder` | client/src/pages/Courses.jsx:47 | categories are listed in the order of the first course carrying each |
| `JsArray.Distinct` | client/src/pages/Courses.jsx:47 | spreading a Set built from a list gives each value of the list exactly once |
| `JsArray.DistinctInFirstOccurrenceOrder` | client/src/pages/Courses.jsx:47 | the values come out in the order of their first occurrence |
| `JsString.Includes` | client/src/pages/Courses.jsx:80-88 | `includes` is true if and only if the term occurs at some index of the text |
| `JsString.ToLowerCase` | client/src/pages/Courses.jsx:81-82 | lower-casing keeps the length and maps each code unit on its own |
| `HomePage.FeaturedCourses` | client/src/pages/Home.jsx:120 | the selection is a prefix of the fetched courses of length min(6, n), the whole list when it has at most six |
| `HomePage.FeaturedCards` | client/src/pages/Home.jsx:120-124 | at most six cards, the i-th being the card of the i-th fetched course |
| `HomePage.FeaturedCardsFollowCourses` | client/src/pages/Home.jsx:43-53 | each home card copies id, title and category of its course, takes its description from the subtitle, then a description prefix of at most 120 UTF-16 code units, then the fixed text, falls back to the placeholder image, and counts students and lectures as array lengths or 0 |

## Findings

| source | as written | input that shows it | evidently intended | confidence | as-written member | corrected member |
|---|---|---|---|---|---|---|
| client/src/pages/Courses.jsx:83-88 | `filterCourses` calls `toLowerCase()` on `course.subTitle` and `course.description` with no guard, while `formatCourseForCard` (line 70) treats both as optional | a course with no `subTitle` and no `description`: the whole filter throws a `TypeError`, even with empty filters and after Clear Filters | a missing subtitle or description is searched as the empty string, so the course is still listed | medium; not executed | `CoursesPage.FilterCoursesAsWritten` (shown by `CoursesPage.AsWrittenThrowsIffTextFieldMissing` and `CoursesPage.MissingTextFieldThrows`) | `CoursesPage.FilterCourses` (with `CoursesPage.FilterKeepsExactlyMatches`, `CoursesPage.ClearFiltersShowsAll`) |

## Left out

- The recurring timer that reports elapsed time and the rule that decides when to raise a break alert. They live in the `ScreenTimeTracker` and `BreakTimeAlert` components, which are not part of this model; the slice only stores what they dispatch.
- Which component dispatches the actions (the Navbar dispatches `endSession` on logout). Dispatch order is taken as given: `DispatchAll` covers every order.
- ScreenTime.ScreenTimeSlice.ResetScreenTime and ScreenTime.ScreenTimeSlice.TakeBreak: `resetScreenTime` and `takeBreak` read `Date.now()` twice, and the two reads may differ by a clock tick; the model uses one instant `now` for both timestamps.
- Action payloads are any JavaScript value in the source. The model types them: an integer for `updateScreenTime` and a boolean for `setBreakAlertShown`.
- JsString.ToLowerCase: maps only the code units of the ASCII letters A–Z. Full Unicode case mapping is not modelled.
- `courseTitle` is taken to be always present; both the filter and the card read it without a fallback.
- Fetching the courses, the loading and error states and their messages are network and React state, and are not modelled. This includes the `category` URL parameter that preselects a category.
- Rendering, routing and animation are not modelled, and neither are the other pages and components.
