# Visitor bookkeeping of a one-page résumé site, in Dafny

The site's `script.js` keeps a little client-side bookkeeping in the
browser's storage and runs two small state machines. This project models
that bookkeeping and proves what it promises:

- **Unique visitors** (`trackUniqueVisitor`). A visit is counted unless
  today's visitor list already holds a record of the same browser
  fingerprint whose last visit is less than 30 minutes old. A counted visit
  adds one to `totalVisitors`, updates the visitor's record in today's list
  (new last-visit time, one more visit) or appends a fresh one, and puts the
  visit in front of `visitHistory`, which keeps the newest 20 entries. The
  session record `currentSession` is written on every visit, and the old
  daily lists are cleaned afterwards.
- **Old daily lists** (`cleanOldDailyCounters`). The cleanup removes every
  `dailyVisitors_<date>` key whose date lies more than 30 days back. It leaves
  every other key alone.
- **Section views** (`trackSectionView`). A section's counter
  `section_<id>` goes up at most once per browser session. The session
  remembers, in `sectionViews`, which ids were already counted.
- **Returning visitors** (the count in `getVisitorStats`). This is the number
  of today's records with more than one visit.
- **Konami code** (the `keydown` listener). The listener keeps a window of the
  last ten key codes. It fires the easter egg when the window spells the
  sequence, and then empties the window.
- **Typewriter** (`typeText` in `initTypingEffect`). Each tick types or
  deletes one character of the current text. A finished text waits for a
  2-second timer before deletion starts. A fully deleted text gives way to
  the next of the five texts.

Both Web Storage objects (localStorage and sessionStorage) are one class
`WebStorage.Store`: a map from string keys to `Value`s, where `Value` stands
for the JSON shapes the script writes. Storage and the clock are inputs.
The fingerprint and the session id come in as parameters. Time is a count of
milliseconds, and a calendar day is `now / DayMs`. The date text in a daily
key is the decimal numeral of the day number. Reading the date back is
`StorageKeys.ParseNat`. Text that is not a numeral plays the part of the
browser's "Invalid Date": it compares false, so such a key is kept.

The proofs are split in two layers. Specification functions describe the new store
after each handler: `VisitTracking.Visit`, `VisitTracking.Prune`,
`SectionTracking.ViewSection` and `VisitorLog.Upsert`. Methods mirror the
handlers step by step and promise exactly that new state. Lemmas then prove
the properties about the specification functions.

Two behaviours of the code are modelled as written:

- The 30-minute repeat check only looks at *today's* list. So a visit just
  after midnight counts again, even when the previous one was a few minutes
  before midnight.
- During the 2-second pause the typewriter keeps ticking, so `charIndex`
  grows past the text's length. The shown text is clamped by `substring`,
  so it stays whole. After the pause, the first deleting ticks still show
  the whole text. The typer's invariant therefore says the shown text is
  `texts[textIndex][..min(charIndex, length)]`. It does not bound `charIndex`
  by the length.

## Model

| member | source | states |
|---|---|---|
| `StorageKeys.ParseNatToString` | script.js:483-484 | reading back the date text of a key gives the day it was written for |
| `StorageKeys.ParseNat` | script.js:483-484 | gives a day exactly for a non-empty string of decimal digits and nothing else; any other date text gives no day, the stand-in for the browser's "Invalid Date" |
| `StorageKeys.DailyKey` | script.js:326 | the key of a day's list starts with `dailyVisitors_` and carries a date after the prefix |
| `StorageKeys.SectionKey` | script.js:505 | the key of a section's counter is `section_` followed by exactly the section id |
| `StorageKeys.KeyDay` | script.js:482-484 | a key yields a date only when it starts with `dailyVisitors_` |
| `StorageKeys.Expired` | script.js:482-486 | only a daily key whose date text parses can be expired |
| `StorageKeys.KeyDayOfDailyKey` | script.js:326 | the date taken out of `dailyVisitors_<day>` (prefix stripped, text parsed) is that day |
| `StorageKeys.DailyKeyInjective` | script.js:326 | two days share a daily key only if they are the same day |
| `StorageKeys.TodayNeverExpired` | script.js:477-490 | the cleanup never removes the list of the day it runs on |
| `VisitorLog.FindRecent` | script.js:330-334 | finds a record exactly when the list has a record of the fingerprint whose last visit is later than 30 minutes ago; what it finds is the first such record |
| `VisitorLog.FindIndex` | script.js:345 | the index of the first record of the fingerprint, or -1 exactly when no record has it |
| `VisitorLog.Upsert` | script.js:345-359 | the list grows by at most one record, and every record of another fingerprint stays where it was, unchanged |
| `VisitorLog.UpsertFrame` | script.js:345-359 | the list grows by one exactly when the fingerprint was absent; every other fingerprint's record keeps its place and content; the fingerprint is on the list afterwards |
| `VisitorLog.UpsertRecord` | script.js:345-359 | on a list with distinct fingerprints, the result still has distinct fingerprints; the visitor's record has `lastVisit = now` and one more visit with `firstVisit` kept, or is new with `firstVisit = lastVisit = now` and one visit |
| `VisitorLog.Remember` | script.js:393-401 | the new entry is first; the older entries follow in their previous order; the length is the old length plus one, at most 20 |
| `VisitorLog.ReturningCount` | script.js:455 | the number of today's records with more than one visit is never more than the number of records |
| `VisitorLog.AllReturning` | script.js:455 | the returning-visitor count equals the number of today's records exactly when every record has more than one visit |
| `VisitorLog.DistinctCount` | script.js:337 | with distinct fingerprints, the length of today's list is the number of different visitors of the day |
| `WebStorage.Store.SetItem` | script.js:342 | `setItem` maps the key to the new value and leaves every other key as it was |
| `WebStorage.Store.RemoveItem` | script.js:487 | `removeItem` drops the key and leaves every other key as it was |
| `WebStorage.CountAt` | script.js:336 | the stored counter, or 0 when the key is absent, as `parseInt` of the item with `'0'` as its default |
| `WebStorage.VisitorsAt` | script.js:327 | the stored visitor list, or empty when the key is absent, as the parsed item with `'[]'` as its default |
| `WebStorage.HistoryAt` | script.js:393 | the stored visit history, or empty when the key is absent |
| `WebStorage.IdsAt` | script.js:497 | the stored list of section ids viewed this session, or empty when the key is absent |
| `VisitTracking.Visit` | script.js:316-403 | a repeat visit leaves the store as it was; a counted visit writes exactly the total, today's list and the history, adding those keys if missing; every other key keeps its value |
| `VisitTracking.Prune` | script.js:477-490 | a key is removed exactly when it starts with `dailyVisitors_` and its date lies more than 30 days back; kept keys keep their values |
| `VisitTracking.PruneKeepsOtherKeys` | script.js:481-482 | keys not starting with `dailyVisitors_` survive the cleanup unchanged |
| `VisitTracking.PruneKeepsRecentDays` | script.js:478-488 | daily lists dated within the last 30 days survive the cleanup unchanged |
| `VisitTracking.RepeatVisitNotCounted` | script.js:330-339 | a repeat visit within 30 minutes leaves `totalVisitors`, today's list and `visitHistory` as they were, cleanup included |
| `VisitTracking.CountedVisit` | script.js:339-361 | any other visit raises `totalVisitors` by exactly one, upserts the visitor in today's list and records the visit in the history |
| `VisitTracking.VisitKeepsTodayDistinct` | script.js:345-361 | today's list keeps one record per fingerprint, grows by at most one, and holds the visitor afterwards |
| `VisitTracking.CountedVisitHistory` | script.js:392-402 | after a counted visit the history holds 1 to 20 entries: the new one first, then the earlier ones in their old order |
| `VisitTracking.VisitFrame` | script.js:316-411 | no key other than the total, today's list and the history changes, except that the cleanup deletes expired daily lists |
| `VisitTracking.CleanOldDailyCounters` | script.js:477-491 | the loop over the keys leaves exactly the pruned store |
| `VisitTracking.TrackUniqueVisitor` | script.js:316-411 | localStorage becomes the pruned result of the visit; `currentSession` records the session id, fingerprint, time and whether the visit was counted |
| `VisitTracking.TodayReturning` | script.js:437-455 | the returning count read from storage is the filter count over today's list (bounded by its length through `ReturningCount`) |
| `SectionTracking.SectionKeyInjective` | script.js:505 | two sections share a counter key only if their ids are equal |
| `SectionTracking.ViewSection` | script.js:493-508 | earlier ids stay on the session list, which grows by at most one; a non-empty id is on it afterwards; the section's counter rises by one exactly when the list grew |
| `SectionTracking.ViewAll` | script.js:493-508 | over a sequence of views, the session list keeps every earlier id and ends up holding every non-empty id viewed |
| `SectionTracking.ViewSectionEffect` | script.js:493-508 | one view keeps the session list free of duplicates; the counter rises by one exactly for a non-empty id new to the session; no other key of either store changes |
| `SectionTracking.CountedOncePerSession` | script.js:494-508 | over any sequence of views in a session, a section's counter rises by one if the section was viewed and not yet counted, and otherwise stays put |
| `SectionTracking.ViewAllKeepsNoDuplicates` | script.js:497-503 | the session's list of viewed ids stays duplicate-free over any sequence of views |
| `SectionTracking.TrackSectionView` | script.js:493-511 | the handler leaves both stores as the view's specification function says |
| `Konami.LastKeys` | script.js:597-600 | the window is the last ten keys, or all of them when fewer were pressed |
| `Konami.Slide` | script.js:597-600 | push then at most one shift: a window of at most ten stays so, and ends with the new code, after the window's own last keys |
| `Konami.SlideKeepsLastKeys` | script.js:596-600 | a window holding the last ten keys typed still does so after one more key |
| `Konami.KonamiListener.constructor` | script.js:589 | the window starts empty |
| `Konami.KonamiListener.KeyDown` | script.js:596-606 | the window never holds more than ten codes; the easter egg fires exactly when the last ten keys since the last reset spell the sequence, and the window is emptied exactly then |
| `Typing.Substring` | script.js:264 | `substring(0, end)` is a prefix of the text whose length is `end` clamped into the text's bounds |
| `Typing.TextsNonEmpty` | script.js:247-253 | every one of the five texts has at least one character |
| `Typing.Typer.constructor` | script.js:255-258 | the typer starts at text 0, character 0, typing |
| `Typing.Typer.TypeText` | script.js:260-283 | the shown text stays a prefix of the current text; `charIndex` moves by one and never goes negative; `textIndex` advances modulo 5 exactly when a deletion reaches 0; a pause is scheduled only when a text is complete and none is pending |
| `Typing.Typer.PauseExpired` | script.js:273-276 | the pause timer starts deletion and changes nothing else |

## Left out

- Particles, navigation, scroll effects, skill bars, smooth scrolling, hover effects, print handlers and the scroll progress bar: DOM and floating-point work with no bookkeeping.
- `generateVisitorFingerprint` and `generateSessionId`: they read the canvas, `navigator`, the clock and `Math.random`. Their results are parameters of `VisitTracking.TrackUniqueVisitor`.
- JSON text: each stored value is one of the shapes in `WebStorage.Value`. The model reads a value of some other shape under a key the script reads as if the key were absent, and overwrites it on the next write. The browser does not always discard it:
  - A non-array under today's daily key makes `find` throw a `TypeError` in `trackUniqueVisitor` (script.js:331). Its `catch` ends the handler before anything is written. The same value makes `filter` throw in `getVisitorStats` (script.js:455), where nothing catches it.
  - A non-array under `visitHistory` makes `unshift` throw (script.js:394). By then the total, today's list and `currentSession` are already written (script.js:342, 361, 388). The `catch` keeps those writes and skips the cleanup (script.js:406). The model writes a new history and prunes instead.
  - A string under `sectionViews` has its own `includes` (script.js:498). When the id occurs inside the string, `trackSectionView` returns and the view is never counted. Otherwise `push` throws (script.js:502), uncaught. Any other non-array there makes `includes` throw, uncaught.
  - A list of another shape is kept. Foreign entries under `visitHistory` pass through `unshift` and `slice` and stay in the history. Foreign entries under `sectionViews` stay on the session list.
  - A non-numeric counter reads as `NaN`.
- The `try`/`catch` around `trackUniqueVisitor`: the model raises no errors, so the handler always finishes.
- `Date` text: `toDateString`, `toISOString` and `new Date(text)` become day numbers and millisecond counts. Days are UTC days, with no time zone and no daylight-saving change. "Thirty days ago" is `now - 30 * DayMs`.
- `currentSession`'s screen, user-agent, referrer, language and platform fields: they are browser facts, not bookkeeping.
- Console output: this includes the per-day counter `dailyVisitors`, which is only logged. `alert`, `logPagePerformance`, the `visibilitychange` and `error` listeners, and the easter-egg animation are left out too. Calling the easter egg is the `activated` result of `Konami.KonamiListener.KeyDown`.
- `getVisitorStats` apart from its returning-visitor count: the rest only reads storage and formats it. `displayVisitorStats` is called in the script but defined elsewhere, and is not part of this model.
- `throttle`, `debounce` and the `setTimeout` chains. A typer tick is a call of `Typing.Typer.TypeText`, which returns the delay before the next tick. The 2-second timer is the event `Typing.Typer.PauseExpired`. The initial one-second delay is not modelled.
- The typewriter's missing-element early return. The element's text before the first tick is also left out: the model starts it empty.
- Number precision: counters and times are unbounded integers, while the browser stores JavaScript numbers, which are exact only up to 2^53.
