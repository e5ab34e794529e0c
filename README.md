# nordeste-assignments in Dafny

A model of the core of nordeste-assignments. The application prepares the weekly assignment sheet of a congregation's midweek meeting, and it has four parts:

- **Workbook extraction.** The server takes the fragments of the publisher's meeting-workbook page. It turns each fragment into an item with an id slug, a display text and a `hasPair` flag. It classifies each item by the rules of its section (intro, treasures, ministry, living), numbers sections and items, and computes the publisher URL for the week.
- **The week the application works on.** This is the current ISO week (Monday to Sunday), or the next one from Friday on. A serverless poller also computes the next Monday.
- **The preview and send handlers.** They resolve contact addresses to lower-cased names and keep a preview cache keyed by the week's first day. They refuse to send an e-mail when no preview of the week is cached.
- **The client.** This covers the assignments store (a reducer over an initial state), the preview step that writes assignees into workbook items, the assignments form, the step-by-step wizard, and the shared text helpers.

Each source file is one module:

| file | module | source |
|---|---|---|
| js.dfy | `Js` | JavaScript values, truthiness, `String(n)` and `Number(s)` on digit strings |
| text.dfy | `Text` | Latin-1 case mapping, accent base letters, whitespace, trim, replace and string order |
| calendar.dfy | `Calendar` | proleptic Gregorian dates as day numbers from 1 January 1900, weekdays, ISO-week Mondays, `DD/MM` and month names |
| server_utils.dfy | `ServerUtils` | server/utils.js |
| server_helpers.dfy | `ServerHelpers` | server/helpers.js |
| workbook_api.dfy | `WorkbookApi` | the `/meeting-workbook` handler of server/api.js |
| preview_api.dfy | `PreviewApi` | the preview and send handlers of server/api.js |
| client_utils.dfy | `ClientUtils` | client/src/common/utils.js |
| root_context.dfy | `RootContext` | client/src/components/RootContext.js |
| assignments_preview.dfy | `AssignmentsPreview` | client/src/components/assignments/AssignmentsPreview.js |
| assignments_form.dfy | `AssignmentsForm` | client/src/components/assignments/AssignmentsForm.js |
| step_by_step.dfy | `StepByStep` | client/src/components/StepByStep.js |
| poller.dfy | `Poller` | serverless/poller/index.js |

The pure code is written as functions and lemmas: the string helpers, `toWorkbookItem`, the skeleton, `getDynamicUrl` and the reducer's building blocks.

The code that changes things in place is written as classes and methods:

- `getWeekSpan` moves a mutable `Moment`.
- The workbook handler numbers items in a loop.
- The preview handler rewrites the ministry fields in a loop and purges and upserts a cache collection.
- `fetchPreview` writes `assignee` and `pair` into the shared `PartItem` objects.
- The form dispatches actions to the store.
- The wizard moves `activeStep`.
- The poller calls `setDate` and `setHours` on a `LocalDate`.

Each method is proved against a function of its inputs and old state, and lemmas state the properties of those functions.

The clock is a parameter (`today`, `now`) throughout, and so are the answers of the network (the mailer's result, the server's preview HTML, the wizard step's callback result).

The publisher URL (server/helpers.js:53-65) is built from the month name and year of the work week's Monday and the day tokens of its Monday and Sunday.

## Model

| member | source | states |
|---|---|---|
| Js.NatToString | server/api.js:197 | `String(n)` of a natural number is a non-empty digit string without a leading zero |
| Js.NatToStringRoundTrip | client/src/components/assignments/AssignmentsForm.js:109-112 | `Number(String(n)) == n`: the numeric suffix written into an id reads back as the same number |
| Js.NatToStringInjective | server/api.js:197 | different positions give different `_<n>` suffixes |
| Js.ToNumber | client/src/components/assignments/AssignmentsForm.js:110-111 | `s * 1` is a number exactly when `s` is a digit string; the empty string gives 0 |
| Js.ToNumberAppendDigit | client/src/components/assignments/AssignmentsForm.js:110-111 | appending a digit to a digit string gives ten times its number plus the digit, so `s * 1` reads the decimal value |
| Js.ToJsString | server/utils.js:38 | `String(v)` of a string is the string itself; of any other value it is non-empty |
| Text.Lower | server/helpers.js:45 | `toLowerCase` maps every character through the case table and keeps the length |
| Text.Upper | server/helpers.js:36 | `toUpperCase` maps every character through the case table and keeps the length |
| Text.StripAccents | server/helpers.js:43-44 | one character: a combining mark U+0300-U+036F vanishes and any other character becomes its base letter; the result holds only plain characters and is never longer |
| Text.StripAccentsConcat | server/helpers.js:43-44 | accents are stripped character by character: stripping a concatenation strips each part, in order |
| Text.Trim | server/helpers.js:46 | `trim()` is the slice after the leading whitespace, followed only by whitespace; it has no whitespace at either end and is empty exactly when the text is all whitespace |
| Text.TrimKeeps | server/helpers.js:46 | trimming keeps every character property the text had |
| Text.ReplaceSpaceRuns | client/src/common/utils.js:8 | `replace(/\s+/g, c)`: a leading whitespace run becomes one `c` and a leading non-whitespace character is kept; no two whitespace characters end up in a row, and every whitespace left is `c` |
| Text.ReplaceSpaceRunsConcat | client/src/common/utils.js:8 | when no whitespace run spans the seam, the runs of `a + b` are replaced in `a` and in `b` separately, in order |
| Text.ReplaceSpaceRunsJoinsWords | client/src/common/utils.js:8 | for a trimmed text, `replace(/\s+/g, c)` is its words (maximal non-whitespace runs) joined by `c` |
| Text.WordUnchanged | client/src/common/utils.js:8 | a text without whitespace is unchanged |
| Text.BlankRuns | client/src/common/utils.js:8 | a non-empty all-whitespace text becomes the single character `c` |
| Text.ReplaceEachSpace | client/src/common/utils.js:12 | `replace(/\s/g, c)` replaces exactly the whitespace characters |
| Text.RemoveChars | server/helpers.js:73 | one character is dropped exactly when it is in the class and kept otherwise; no character of the class is left, and a text without any is unchanged |
| Text.RemoveCharsConcat | server/helpers.js:73 | removing from a concatenation removes from each part and keeps the surviving characters in order |
| Text.IndexOf | server/helpers.js:67-70 | `indexOf` is -1 exactly when the needle does not occur, else the first occurrence |
| Text.ReplaceFirst | client/src/components/assignments/AssignmentsForm.js:110 | `replace` with a string pattern replaces its first occurrence and changes nothing when it does not occur |
| Text.LexLeTotal | client/src/components/assignments/AssignmentsForm.js:110 | the string order of `sort()` is total |
| Text.LexLeTransitive | client/src/components/assignments/AssignmentsForm.js:110 | the string order of `sort()` is transitive |
| Text.LexLeAntisymmetric | client/src/components/assignments/AssignmentsForm.js:110 | the string order of `sort()` is antisymmetric |
| Calendar.CivilFromDays | serverless/poller/index.js:10 | a day number becomes a valid calendar date that converts back to the same day number |
| Calendar.CivilRoundTrip | serverless/poller/index.js:10 | date to day number to date is the identity, so a day past a month's end rolls into the next month or year |
| Calendar.DaysFromCivilInjective | server/helpers.js:22-23 | different dates have different day numbers |
| Calendar.MondayOf | server/helpers.js:22 | `startOf('isoWeek')` is a Monday at most six days before the day |
| Calendar.MondayOfUnique | server/helpers.js:22 | the ISO-week Monday is the only Monday within the six days before the day |
| Calendar.MondayOfNextWeek | server/helpers.js:18 | `add(1, 'week')` moves the ISO-week Monday one week on |
| Calendar.WeekdayWithinWeek | server/helpers.js:50 | the weekday is the distance from the ISO-week Monday, counted with Sunday as 0 |
| Calendar.MonthNameInjective | server/helpers.js:59 | comparing `format('MMMM')` compares the months |
| Calendar.FormatDayMonth | server/helpers.js:22-23 | `format('DD/MM')` is five characters whose two fields read back as the day and the month |
| Calendar.FormatDay | server/helpers.js:58 | `format('D')` is one or two characters without a leading zero that read back as the day |
| ServerUtils.GetProperText | server/utils.js:43-50 | a falsy argument gives `''`; a string gives its canonical form `ProperText`, a trimmed text with no combining mark and no capital; a truthy non-string throws (`None`) |
| ServerUtils.ProperText | server/helpers.js:40-47 | the canonical form is the accent-stripped, lower-cased text with its whitespace ends removed: the slice after its leading whitespace, followed only by whitespace; it has no capital, only plain characters and no whitespace at either end |
| ServerUtils.ProperTextIdempotent | server/helpers.js:40-47 | the canonical form of a canonical text is itself |
| ServerUtils.ProperTextIgnoresCase | server/helpers.js:40-47 | lower-casing before the canonical form changes nothing |
| ServerUtils.StripAccentsOfLower | server/helpers.js:43-45 | accent stripping and lower-casing commute |
| ServerUtils.Capitalize | server/utils.js:37-41 | the result of `capitalize` has the length of `String(v)` and the same lower-case form; a letter a-z is upper-cased exactly at the start and after a non-word character |
| ServerUtils.LowerIdempotent | server/utils.js:39 | lower-casing twice is lower-casing once |
| ServerHelpers.IndexOrInfinity | server/helpers.js:67-70 | Infinity (`None`) exactly when the needle does not occur, else its first index |
| ServerHelpers.SubstringTo | server/helpers.js:79-80 | `substring(0, end)` is a prefix: all of the text for Infinity or a large end, `end` characters otherwise, empty for a negative end |
| ServerHelpers.Shift | server/helpers.js:79-84 | Infinity plus or minus one is still Infinity |
| ServerHelpers.IdSource | server/helpers.js:82-84 | the id is made from the text ending two characters before the first `(`, or from the whole text when there is none |
| ServerHelpers.Slug | server/helpers.js:84-87 | the id slug is the title with `”“"':?` removed, each whitespace run turned into `_`, accents stripped and lower-cased; it has no whitespace, none of the removed characters and no capital |
| ServerHelpers.UntrimmedSlug | server/helpers.js:82-87 | for an id-safe text, `getProperText` is accent stripping and lower-casing only: no whitespace is left for `trim` to remove |
| ServerHelpers.DisplayText | server/helpers.js:78-80 | the text is cut just after the first `)`, or kept whole when there is none, and `”`/`“` become `"` |
| ServerHelpers.ToWorkbookItem | server/helpers.js:72-89 | after `:"'` are removed from the fragment, the text is its display text, the id the slug of its id source, and `hasPair` the pair test of the fragment; the id has no whitespace or id punctuation and the text no `:` or `'` |
| ServerHelpers.HasPairText | server/helpers.js:75-81 | a part has a pair when its canonical text mentions `(melhore licao` or `estudo biblico de congregacao` and mentions neither `discurso (` nor `leitura da biblia (`, ignoring case |
| ServerHelpers.HasPair | server/helpers.js:73-81 | the pair test runs on the canonical form of the fragment without `:"'` |
| ServerHelpers.HasPairIgnoresCase | server/helpers.js:74-81 | whether an item has a second participant does not depend on the fragment's letter case |
| ServerHelpers.RemoveCharsOfLower | server/helpers.js:73-74 | removing punctuation commutes with lower-casing |
| ServerHelpers.WorkbookSkeleton | server/helpers.js:91-136 | exactly four sections in the order intro, treasures, ministry, living, each with an empty item list and its fixed colour and tones |
| ServerHelpers.IsAssignable | server/helpers.js:97-130 | a part is assignable: in the intro when it mentions `comentários iniciais` or `oração`; always in treasures and ministry; in living unless it mentions `cântico` without `oração`; case ignored |
| ServerHelpers.ChairmanAssigned | server/helpers.js:98-131 | the chairman takes the intro's `comentários iniciais`, no treasures part, every ministry part but `(melhore lição` and living's `comentários finais`; case ignored |
| ServerHelpers.ChairmanPartsAreAssignable | server/helpers.js:97-120 | outside the living section, a part the chairman takes is an assignable part |
| ServerHelpers.CapitalizeFrom | server/helpers.js:36 | the `replace` scan produces, from each position, the word-start characterisation of the suffix |
| ServerHelpers.CapitalizeText | server/helpers.js:34-38 | `capitalize` of a string is its lower-case form with the first character of every word upper-cased, where a word starts the text or follows whitespace or one of `"'([{`; of anything else it is undefined |
| ServerHelpers.ShouldJumpToNextWeek | server/helpers.js:49-51 | the short pt-br weekday name, lower-cased, is one of `sex`, `sáb`, `dom`; `JumpOnFridayToSunday` shows this means Friday to Sunday |
| ServerHelpers.JumpOnFridayToSunday | server/helpers.js:49-51 | the application jumps to the next week exactly on Friday, Saturday and Sunday |
| ServerHelpers.WorkWeekMonday | server/helpers.js:14-25 | the work week's Monday is a Monday: the next ISO week's on Friday to Sunday, else the Monday of the week holding today |
| ServerHelpers.Moment.AddDays | server/helpers.js:18 | `add(7, 'day')` moves the day and keeps the time of day |
| ServerHelpers.Moment.StartOfIsoWeek | server/helpers.js:22 | `startOf('isoWeek')` is midnight of the week's Monday |
| ServerHelpers.Moment.EndOfIsoWeek | server/helpers.js:23 | `endOf('isoWeek')` is the last millisecond of the week's Sunday |
| ServerHelpers.DayMonthOf | server/helpers.js:22-23 | a day number as `DD/MM`: five characters whose two fields read back as that day's day of the month and month |
| ServerHelpers.Moment.FormatDayMonth | server/helpers.js:22-23 | `format('DD/MM')` of the moment's day |
| ServerHelpers.ToWorkWeekMonday | server/helpers.js:17-22 | the jump and `startOf('isoWeek')` move `now` to midnight of the work week's Monday |
| ServerHelpers.GetWeekSpan | server/helpers.js:14-25 | `start` is the work week's Monday and `end` the Sunday six days later, both as `DD/MM`; `now` is left at the end of that Sunday |
| ServerHelpers.ToSunday | server/helpers.js:23 | from a Monday, `endOf('isoWeek')` moves `now` to the last millisecond of the Sunday six days later, and `end` is that Sunday as `DD/MM` |
| ServerHelpers.WorkWeekMondayFrom | server/helpers.js:17-22 | the ISO-week Monday of the possibly jumped day is the work week's Monday |
| ServerHelpers.WeekSpanIsMondayToSunday | server/helpers.js:21-24 | the span runs from a Monday to a Sunday |
| ServerHelpers.UrlMonday | server/helpers.js:54-55 | the end of the ISO week plus a day, on Friday to Sunday, and then `startOf('isoWeek')` give the same Monday as `getWeekSpan` |
| ServerHelpers.DynamicUrlTokens | server/helpers.js:53-63 | the URL's tokens are those of the work week's Monday and Sunday |
| ServerHelpers.WeekTokens | server/helpers.js:59-63 | the month name and the year come from the Monday; the "from" token is the Monday's `D` when Monday and Sunday share a month and `D-de-<month>` otherwise; the "to" token is the Sunday's `D-de-<month>` |
| ServerHelpers.FromToken | server/helpers.js:62 | the "from" token is the Monday's `D` when both days are in one month, and `D-de-<Monday's month>` otherwise; it has no `-` exactly in the first case |
| ServerHelpers.DynamicUrl | server/helpers.js:64 | the URL is the publisher path for the Monday's month and year, then `Programa-da-semana-de-<from>-<to>-de-<year>-na-Apostila-da-Reunião-Vida-e-Ministério/` |
| WorkbookApi.PrepareFragment | server/api.js:193 | the fragment is `Trim` of the text with every newline removed: it has no newline and no whitespace at either end, and is no longer than the raw text |
| WorkbookApi.ItemFor | server/api.js:192-198 | an item is `toWorkbookItem` of the prepared fragment with `_<position>` appended to its id; `isAssignable` is tested on the item's text and `chairmanAssigned` on the raw fragment; it keeps its position |
| WorkbookApi.SectionItems | server/api.js:191-199 | one item per fragment, the j-th made from the j-th fragment with position j + 1 |
| WorkbookApi.Numbered | server/api.js:191-199 | items are made in fragment order, the n-th with position n |
| WorkbookApi.BuildItems | server/api.js:191-200 | the `each` loop with `++itemPosition` yields the section's items, numbered from 1 in fragment order |
| WorkbookApi.AssembleWorkbook | server/api.js:186-204 | the four sections keep skeleton order with positions 1 to 4, their titles and colours, and the items built from their own fragments |
| WorkbookApi.PositionSuffixesDiffer | server/api.js:197 | appending `_<n>` makes ids at different positions differ, whatever their slugs |
| WorkbookApi.ItemIdsDistinct | server/api.js:193-197 | items at different positions of a section have different ids |
| WorkbookApi.SectionItemIdsDistinct | server/api.js:191-199 | within a section every item has its own id |
| PreviewApi.FirstMatchFrom | server/api.js:56 | `find` gives the first document whose key equals the value, if any |
| PreviewApi.ResolveName | server/api.js:56-85 | an address with no matching document resolves to `''`; otherwise it resolves to the first match's name, lower-cased |
| PreviewApi.ResolveItem | server/api.js:82-88 | the assignee is always resolved, the pair only for an item with `hasPair` |
| PreviewApi.ResolveSection | server/api.js:82-90 | a section's items are resolved one for one; a section without items gets `[]` |
| PreviewApi.WeekStep | server/api.js:79-91 | one step of the `reduce`: the chairman entry sets the chairman's name, any other entry stores its resolved section under its id |
| PreviewApi.WeekFold | server/api.js:77-94 | the `reduce` over the entries in order, from `{}` |
| PreviewApi.WeekFoldKeys | server/api.js:77-94 | the reduced week holds a section under exactly the ids of the non-chairman entries, and a chairman exactly when some entry has id `chairman` |
| PreviewApi.WeekFoldLast | server/api.js:79-90 | the section stored under an id is the last entry with that id, resolved; the chairman is the last chairman entry's resolved name |
| PreviewApi.ReduceWeek | server/api.js:77-94 | the `reduce` over the entries computes the week fold |
| PreviewApi.ResolveMinistryField | server/api.js:65-66 | a ministry field's text becomes `String(text).toLowerCase()` and its value the conductor's resolved name |
| PreviewApi.ResolveMinistry | server/api.js:64-67 | the `for...in` loop rewrites every ministry field and adds or drops no key |
| PreviewApi.Purged | server/api.js:105 | `deleteMany` with `$nin` keeps exactly the records of the week; one record is kept exactly when it is of the week |
| PreviewApi.PurgedConcat | server/api.js:105 | the purge filters a concatenation part by part, keeping the order of the records; `FirstOfWeek` depends on that order |
| PreviewApi.FirstOfWeek | server/api.js:108-112 | the first cached record of the week, if any |
| PreviewApi.Overwritten | server/api.js:112-118 | `save()` keeps the stored record's week and takes the new `weekend`, `ministry`, `cleaning`, `week` and `loggedUser` |
| PreviewApi.Upserted | server/api.js:108-119 | with no record of the week the preview is created; otherwise the first record of the week is overwritten |
| PreviewApi.StoredPreview | server/api.js:105-119 | after the purge and the upsert, the cache holds only records of the week, and the first one carries the new preview's fields |
| PreviewApi.Subject | server/api.js:26 | the subject is `DESIGNAÇÕES DA SEMANA (<start> - <end>)`, with each part at its place |
| PreviewApi.Recipients | server/api.js:36-37 | the recipients are exactly the contacts whose address is among the requested ones |
| PreviewApi.Send | server/api.js:21-49 | with no cached preview of the week the answer is 400 and no e-mail is sent; otherwise the e-mail has the week's subject, renders the first cached record of the week, goes to the requested contacts, and the answer is 200 exactly when the mailer delivers |
| PreviewApi.PreviewCache.PurgeOthers | server/api.js:105 | the collection afterwards is the purged one |
| PreviewApi.PreviewCache.Upsert | server/api.js:108-119 | the collection afterwards is the upserted one |
| PreviewApi.PreviewCache.Preview | server/api.js:51-127 | a missing `weekend` entry, `cleaning`, `week` or `isMobile` gives 400 and leaves the cache unchanged; otherwise the rendered record has the resolved weekend, cleaning, ministry and week, no `isMobile`, and the cache is purged and upserted |
| RootContext.Insert | client/src/components/RootContext.js:42-44 | appending an element and sorting adds exactly that element |
| RootContext.InsertSorted | client/src/components/RootContext.js:44 | inserting into a list ordered by key keeps it ordered |
| RootContext.SortBy | client/src/components/RootContext.js:35 | the sort is a permutation |
| RootContext.SortBySorted | client/src/components/RootContext.js:35 | the sort orders by key |
| RootContext.WithoutContact | client/src/components/RootContext.js:47 | one contact is kept exactly when its id is another; the result holds exactly the contacts with another id |
| RootContext.WithoutGroup | client/src/components/RootContext.js:60 | one group is kept exactly when its id is another; the result holds exactly the groups with another id |
| RootContext.WithoutContactConcat | client/src/components/RootContext.js:47 | the contact filter works element by element: filtering a concatenation filters each part, in order |
| RootContext.WithoutGroupConcat | client/src/components/RootContext.js:60 | the group filter works element by element: filtering a concatenation filters each part, in order |
| RootContext.Reduce | client/src/components/RootContext.js:26-92 | the reducer; an unknown action (the `default` branch, lines 88-90) returns the old state |
| RootContext.ReduceWritesOwnPart | client/src/components/RootContext.js:26-92 | each action writes only the part of the state it is named after: the e-mail flag, parts, contacts, contact groups, cleaning groups, the ministry field cache, the assigned parts or the preview |
| RootContext.Merge | client/src/components/RootContext.js:64 | `{ ...old, ...data }` has both key sets; the data's values win |
| RootContext.WithBucket | client/src/components/RootContext.js:68-79 | replacing one bucket of `assignedParts` leaves the other three alone |
| RootContext.SetEmailSentStoresBoolean | client/src/components/RootContext.js:28-29 | `SET_EMAIL_SENT` stores `Boolean(data)` and changes nothing else |
| RootContext.SetContactGroupsDefaultsToEmpty | client/src/components/RootContext.js:48-49 | `SET_CONTACT_GROUPS` stores the data, or `[]` when it is falsy, and changes nothing else |
| RootContext.SetContactsSorts | client/src/components/RootContext.js:32-36 | `SET_CONTACTS` stores a permutation of the data ordered by upper-cased name |
| RootContext.AddContactInsertsOne | client/src/components/RootContext.js:37-45 | `ADD_CONTACT` adds exactly `{id, text: name, value: address}`, grows the list by one and keeps it ordered |
| RootContext.AddContactGroupInsertsOne | client/src/components/RootContext.js:50-58 | `ADD_CONTACT_GROUP` adds exactly the new group and keeps the list ordered |
| RootContext.RemoveContactFilters | client/src/components/RootContext.js:46-47 | `REMOVE_CONTACT` stores the contacts filtered by id, drops exactly the contacts with that id and changes nothing else |
| RootContext.WithoutContactShrinks | client/src/components/RootContext.js:47 | the filter never grows the list and keeps it when no contact has the id |
| RootContext.RemoveContactGroupFilters | client/src/components/RootContext.js:59-60 | `REMOVE_CONTACT_GROUP` stores the groups filtered by id, drops exactly the groups with that id and changes nothing else |
| RootContext.AddMinistryFieldCacheMerges | client/src/components/RootContext.js:63-64 | `ADD_MINISTRY_FIELD_CACHE` overwrites the data's keys, keeps the others and changes nothing else |
| RootContext.RemoveKeyKeepsOthers | client/src/components/RootContext.js:65-82 | removing a key from the ministry field cache or the ministry bucket makes it absent and keeps every other key |
| RootContext.AssignToTouchesOneBucket | client/src/components/RootContext.js:68-79 | an `ASSIGN_TO_*` action merges into its own bucket; the other three are unchanged |
| RootContext.PreviewFlags | client/src/components/RootContext.js:83-87 | `SET_PREVIEW_CONTENT` sets the html with `shouldRefresh` false; `SET_PREVIEW_OUTDATED` sets `shouldRefresh` and keeps the html |
| RootContext.PartItem.constructor | server/api.js:193-199 | a new part item has no assignee and no pair |
| RootContext.AssignmentsStore.constructor | client/src/components/RootContext.js:5-22 | the store starts from the initial state |
| RootContext.AssignmentsStore.Dispatch | client/src/components/RootContext.js:26-92 | a dispatch replaces the state by the reducer's result |
| AssignmentsPreview.PairValue | client/src/components/assignments/AssignmentsPreview.js:35 | the pair is undefined exactly when no entry has id `<item id>-pair`, else the value of such an entry |
| AssignmentsPreview.FirstPart | client/src/components/assignments/AssignmentsPreview.js:31 | `wp.find` gives the first part whose id is the entry's section |
| AssignmentsPreview.Skipped | client/src/components/assignments/AssignmentsPreview.js:27-29 | an entry whose id contains `-pair` or whose section is `chairman` is passed over |
| AssignmentsPreview.TouchItem | client/src/components/assignments/AssignmentsPreview.js:32-37 | one item of the `forEach`: a non-assignable item, or one neither named by the entry nor chairman-assigned, is left alone; otherwise the pair is written when the item has one, then the assignee is the entry's value or, for a chairman-assigned item, the chairman's value, and a missing chairman throws |
| AssignmentsPreview.TouchItems | client/src/components/assignments/AssignmentsPreview.js:31-38 | the `forEach` over the first `n` items, stopped by an exception; it keeps the slot table's length |
| AssignmentsPreview.ResolveWeek | client/src/components/assignments/AssignmentsPreview.js:26-41 | the `reduce` over the first `n` entries, stopped by an exception; it keeps every part's slot table shaped like its items |
| AssignmentsPreview.StepEntry | client/src/components/assignments/AssignmentsPreview.js:26-41 | one step of the `reduce` keeps every part's slot table shaped like its items |
| AssignmentsPreview.SkippedEntryAssignsNothing | client/src/components/assignments/AssignmentsPreview.js:27-29 | an entry whose id contains `-pair` or whose section is `chairman` assigns nothing |
| AssignmentsPreview.TouchItemsAllowed | client/src/components/assignments/AssignmentsPreview.js:31-38 | an entry changes an item only as allowed: never a non-assignable item; the assignee is the chairman's value for an item the chairman takes, else the value of an entry with the item's id; the pair is the value of the `-pair` entry |
| AssignmentsPreview.AllowedChangeComposes | client/src/components/assignments/AssignmentsPreview.js:26-41 | allowed changes compose across entries |
| AssignmentsPreview.ResolveWeekAllowed | client/src/components/assignments/AssignmentsPreview.js:26-41 | however many entries are processed, every item's slots change only as allowed |
| AssignmentsPreview.TouchItemsSucceed | client/src/components/assignments/AssignmentsPreview.js:37 | with a chairman entry, no item throws |
| AssignmentsPreview.ResolveWeekSucceeds | client/src/components/assignments/AssignmentsPreview.js:26-41 | the `reduce` throws exactly when an assigning entry names no part, or an item the chairman takes is reached without a chairman entry |
| AssignmentsPreview.TouchItemsStops | client/src/components/assignments/AssignmentsPreview.js:31-38 | after an exception no later item changes |
| AssignmentsPreview.ResolveWeekStops | client/src/components/assignments/AssignmentsPreview.js:26-41 | after an exception no later entry changes anything |
| AssignmentsPreview.LastTouch | client/src/components/assignments/AssignmentsPreview.js:26-38 | the last of the first `n` entries that writes into an item: a non-skipped entry whose section's first part holds the item, with the item assignable and named by the entry or chairman-assigned; no later entry does |
| AssignmentsPreview.TouchItemsResult | client/src/components/assignments/AssignmentsPreview.js:31-38 | a `forEach` that completes puts each item through the item step once, without exception, and leaves the others alone |
| AssignmentsPreview.ResolveWeekStep | client/src/components/assignments/AssignmentsPreview.js:26-41 | one entry of a completed `reduce` puts an item it writes into through the item step and leaves every other item's slot alone |
| AssignmentsPreview.ResolveWeekAssigns | client/src/components/assignments/AssignmentsPreview.js:26-41 | in a `reduce` that completes, an item no entry reaches keeps its slot; otherwise a chairman-assigned item holds the chairman's value, any other item the value of the last entry that reaches it, and an item with a pair its pair entry's value; an item without a pair keeps its pair |
| AssignmentsPreview.TouchPart | client/src/components/assignments/AssignmentsPreview.js:31-38 | the `forEach` writes into the part's items exactly the slots the item function gives |
| AssignmentsPreview.ApplyEntry | client/src/components/assignments/AssignmentsPreview.js:26-41 | one `reduce` step writes into the items of the part the entry names and no others |
| AssignmentsPreview.ApplyWeek | client/src/components/assignments/AssignmentsPreview.js:24-41 | the `reduce` writes into the items exactly the slots of the week resolution |
| AssignmentsPreview.CleaningCopy | client/src/components/assignments/AssignmentsPreview.js:18-22 | the copy drops `cleaning_group_2` exactly when its value is empty and keeps every other entry |
| AssignmentsPreview.Values | client/src/components/assignments/AssignmentsPreview.js:24 | `Object.values` lists the entry of every key in key order |
| AssignmentsPreview.ChairmanOf | client/src/components/assignments/AssignmentsPreview.js:37-49 | `week.chairman` is the chairman entry when there is one |
| AssignmentsPreview.FetchPreview | client/src/components/assignments/AssignmentsPreview.js:17-65 | the items receive the resolved slots; the request is posted exactly when the `reduce` did not throw, with the sections, `week.chairman` and the cleaning copy; the store takes the answer as new preview content |
| AssignmentsPreview.ShouldRefetch | client/src/components/assignments/AssignmentsPreview.js:67-69 | the preview is fetched when there is no html or it is marked outdated |
| AssignmentsPreview.RefetchFollowsStore | client/src/components/assignments/AssignmentsPreview.js:67-69 | a fresh store refetches; new non-empty content stops refetching until the preview is marked outdated |
| AssignmentsForm.RemoveFirstSpaceRun | client/src/components/assignments/AssignmentsForm.js:87 | removing the first whitespace run leaves a non-whitespace character exactly when there was one |
| AssignmentsForm.BlankIffWhitespace | client/src/components/assignments/AssignmentsForm.js:87 | a description is blank exactly when it is absent or all whitespace |
| AssignmentsForm.IsBlank | client/src/components/assignments/AssignmentsForm.js:87 | `!text || !String(text).replace(/\s+/, '').trim()` |
| AssignmentsForm.IsDuplicate | client/src/components/assignments/AssignmentsForm.js:88-90 | some cached field's lower-cased text equals the lower-cased, trimmed description |
| AssignmentsForm.LastKey | client/src/components/assignments/AssignmentsForm.js:110 | `sort().pop()` is the greatest key in string order |
| AssignmentsForm.LexLeCommonPrefix | client/src/components/assignments/AssignmentsForm.js:110 | a common prefix does not change string order |
| AssignmentsForm.ReplacePrefix | client/src/components/assignments/AssignmentsForm.js:110 | removing the prefix from a field key leaves its suffix |
| AssignmentsForm.NextFieldIdAsWritten | client/src/components/assignments/AssignmentsForm.js:107-113 | the id as the code builds it: one more than the suffix of the last key in string order, or `NaN` when the suffix is not a number |
| AssignmentsForm.NextFieldIdAsWrittenCollides | client/src/components/assignments/AssignmentsForm.js:107-113 | with keys `_9` and `_10` the id built as written is `_10`, an existing key |
| AssignmentsForm.LastKeyOfNineAndTen | client/src/components/assignments/AssignmentsForm.js:110 | `_9` sorts after `_10` |
| AssignmentsForm.MaxSuffix | client/src/components/assignments/AssignmentsForm.js:108-113 | the greatest numeric suffix bounds every numbered key |
| AssignmentsForm.NextFieldId | client/src/components/assignments/AssignmentsForm.js:107-113 | the intended id: one more than the greatest numeric suffix |
| AssignmentsForm.NextFieldIdFresh | client/src/components/assignments/AssignmentsForm.js:108-113 | the new id is never an existing key, and the first one is `field_service_conductor_1` |
| AssignmentsForm.ValidateField | client/src/components/assignments/AssignmentsForm.js:86-105 | a description is refused exactly when it is blank or a duplicate, with the matching message; an accepted one is stored trimmed and unassigned under a new prefixed key |
| AssignmentsForm.AddedFieldIsNew | client/src/components/assignments/AssignmentsForm.js:107-119 | a new field is stored under a key no field had, and every earlier field is kept |
| AssignmentsForm.CreateNewMinistryField | client/src/components/assignments/AssignmentsForm.js:107-120 | the store merges the new field under its new id |
| AssignmentsForm.ValidateFieldDescription | client/src/components/assignments/AssignmentsForm.js:86-105 | the result and the store follow the validation: a refused description opens the matching modal and changes nothing |
| AssignmentsForm.Assigned | client/src/components/assignments/AssignmentsForm.js:144-147 | `assign`: `SET_PREVIEW_OUTDATED`, then the bucket's `ASSIGN_TO_*` with `{[id]: data}` |
| AssignmentsForm.AssignedEffect | client/src/components/assignments/AssignmentsForm.js:144-147 | `assign` puts the data under its id in its bucket, marks the preview outdated and changes nothing else |
| AssignmentsForm.Assign | client/src/components/assignments/AssignmentsForm.js:144-147 | the store takes the two dispatches of `assign` |
| AssignmentsForm.FieldRemoved | client/src/components/assignments/AssignmentsForm.js:133-137 | `removeMinistryFieldCache`: `SET_PREVIEW_OUTDATED`, `REMOVE_MINISTRY_FIELD_CACHE` and `UNASSIGN_FROM_MINISTRY`, in that order |
| AssignmentsForm.FieldRemovedEffect | client/src/components/assignments/AssignmentsForm.js:133-137 | removing a field drops its key from the cache and from the ministry bucket, keeps every other key with its value, leaves the other buckets and the rest of the state alone, and marks the preview outdated |
| AssignmentsForm.RemoveMinistryFieldCache | client/src/components/assignments/AssignmentsForm.js:133-137 | the store takes the three dispatches of `removeMinistryFieldCache` |
| AssignmentsForm.MainSelect | client/src/components/assignments/AssignmentsForm.js:394-427 | the main select of an assignable item: the disabled automatic select for a chairman-assigned item, else one with the item's id, labelled `Dirigente` for a living item with a pair and `Designado` otherwise |
| AssignmentsForm.PairSelect | client/src/components/assignments/AssignmentsForm.js:428-444 | the pair select of an item with a pair: id `<item id>-pair`, labelled `Leitor` in the living section and `Ajudante` elsewhere |
| AssignmentsForm.ItemSelects | client/src/components/assignments/AssignmentsForm.js:394-444 | an item row shows one select if assignable plus one if it has a pair; their ids differ and only the automatic one is disabled |
| AssignmentsForm.SelectRules | client/src/components/assignments/AssignmentsForm.js:394-444 | a main select exactly for an assignable item, disabled exactly when the chairman takes it, labelled `Dirigente` exactly in living with a pair; a pair select `<id>-pair` exactly with a pair, labelled `Leitor` exactly in living |
| AssignmentsForm.SelectsFeedPreview | client/src/components/assignments/AssignmentsForm.js:396-436 | a pair choice is an entry the preview skips and takes as the item's pair; a main choice is an entry that assigns its item |
| AssignmentsForm.CongregationEffect | client/src/components/assignments/AssignmentsForm.js:468-477 | the chosen congregation is stored; another congregation than the main one empties `cleaning_group_2` |
| AssignmentsForm.CongregationChosen | client/src/components/assignments/AssignmentsForm.js:468-477 | the congregation is assigned to `cleaning_1`; another congregation than the main one also assigns an empty `cleaning_group_2` |
| AssignmentsForm.SelectCongregation | client/src/components/assignments/AssignmentsForm.js:468-477 | the store takes the congregation change |
| AssignmentsForm.FindContact | client/src/components/assignments/AssignmentsForm.js:354 | `find` gives a contact with the chosen value exactly when one exists |
| AssignmentsForm.ChairmanEffect | client/src/components/assignments/AssignmentsForm.js:353-364 | the chairman is assigned exactly when the chosen value is some contact's address, and nothing changes otherwise |
| AssignmentsForm.ChairmanChosen | client/src/components/assignments/AssignmentsForm.js:353-364 | the chairman entry of the contact with the chosen address is assigned to the week; nothing changes when no contact has it |
| AssignmentsForm.SelectChairman | client/src/components/assignments/AssignmentsForm.js:353-364 | the store takes the chairman change |
| ClientUtils.NormalizeText | client/src/common/utils.js:1-9 | a falsy argument gives `''`; a string gives the words of its canonical form joined by single spaces, so it has no mark, no capital, no whitespace at either end and no two whitespace characters in a row; a truthy non-string throws (`None`) |
| ClientUtils.CollapsedProperText | client/src/common/utils.js:3-8 | the normalised form is the words of the canonical form joined by single spaces: no mark, no capital, no whitespace at either end |
| ClientUtils.GenerateElementId | client/src/common/utils.js:11-13 | the id exists exactly when the text normalises; for a string it is the words of the canonical form, each without `"()`, joined by `-` or `_`; it has no whitespace, no `"`, `(` or `)` |
| ClientUtils.ElementIdOf | client/src/common/utils.js:12 | each space becomes `-` when dashed and `_` otherwise, `"()` are removed, and nothing else changes |
| ClientUtils.ValidateRequired | client/src/common/utils.js:42-51 | `true` exactly when the value is neither undefined nor null and `String(value).trim()` is non-empty, else the required-field message |
| ClientUtils.EmailIfValid | client/src/common/utils.js:53-57 | the argument itself exactly when it is a string of e-mail shape, else undefined |
| ClientUtils.EmailAccepted | client/src/common/utils.js:54 | `ana@mail.com` is accepted |
| ClientUtils.EmailRejectedShortDomain | client/src/common/utils.js:54 | two characters are needed between the `@` and the dot |
| ClientUtils.EmailRejectedAcrossLines | client/src/common/utils.js:54 | the match may not span a line break |
| ClientUtils.EmailRejectsNonStrings | client/src/common/utils.js:53 | non-strings are rejected |
| StepByStep.Stepper.constructor | client/src/components/StepByStep.js:20 | the wizard starts on step 0 |
| StepByStep.Stepper.IsFirst | client/src/components/StepByStep.js:22 | `isFirst`: the active step is 0 |
| StepByStep.Stepper.HasNext | client/src/components/StepByStep.js:23 | `hasNext`: the active step is before the last step |
| StepByStep.Stepper.HasCompleted | client/src/components/StepByStep.js:24 | `hasCompleted`: the active step is one past the last step |
| StepByStep.Stepper.StepHint | client/src/components/StepByStep.js:26 | the hint is the active step's hint, or `''` when there is no step at that index |
| StepByStep.Stepper.HandleBack | client/src/components/StepByStep.js:28-31 | back moves exactly one step back; from a step other than the first (the button is disabled on the first, line 98) it stays on a step |
| StepByStep.Stepper.HandleNext | client/src/components/StepByStep.js:32-41 | next moves one step on exactly when the step has no callback or its result is truthy; while `hasNext` holds (the button is shown only then, line 99) it stays on a step |
| StepByStep.Stepper.HandleReset | client/src/components/StepByStep.js:42-46 | reset always clears the e-mail-sent flag and changes nothing else in the store; it returns to the first step when an `onReset` callback was passed, and otherwise throws on the call with the active step unchanged |
| Poller.LocalDate.constructor | serverless/poller/index.js:5 | a date holds its day and time of day |
| Poller.LocalDate.GetDay | serverless/poller/index.js:6 | `getDay()` is a weekday 0 to 6 |
| Poller.LocalDate.GetDate | serverless/poller/index.js:10 | `getDate()` is a day of the month 1 to 31 |
| Poller.LocalDate.SetDate | serverless/poller/index.js:10 | `setDate(d)` goes to the date `d - 1` days after the first of the month, rolling over month and year ends |
| Poller.LocalDate.SetHours | serverless/poller/index.js:11 | `setHours(h, 0, 0, 0)` keeps the date and sets the time of day to `h` hours |
| Poller.SetDateOffset | serverless/poller/index.js:10 | setting the day of the month to today's plus `k` moves the date `k` days on |
| Poller.GetNextMonday | serverless/poller/index.js:4-13 | `now` moves `8 - weekday` days on, to noon |
| Poller.NextMondayProperties | serverless/poller/index.js:4-11 | the result is a Monday, two to eight days after today and never today's date |

## Left out

- Text is `seq<char>` of code points. JavaScript's UTF-16 code units, surrogate pairs and full Unicode case mapping are not modelled. Case mapping covers Latin-1 only.
- NFD decomposition (Unicode Standard Annex #15) is a fixed table. It maps each accented Latin-1 letter to its base letter and drops U+0300-U+036F.
- `encodeURI` percent-encoding (section 2.1 of RFC 3986) is not modelled. `DynamicUrl` is the URL before encoding.
- The clock, the time zone, daylight saving and moment's locale machinery are not modelled. `today` and `now` are day numbers with a time of day. The weekday abbreviations and month names are the fixed `pt-br` tables.
- Calendar dates start at 1 January 1900; earlier dates are not modelled.
- `toISOString` (serverless/poller/index.js:12) is not modelled. Its UTC conversion depends on the host time zone.
- The poller's cron schedule and HTTP call (serverless/poller/index.js:17-27) are I/O.
- HTTP, HTML and rendering are not modelled. This covers `axios`, `cheerio`, the section item selectors, `.remove('.noMarker')`, `getTitle`, pug and Express. The per-section fragment lists and titles are inputs of `WorkbookApi.AssembleWorkbook`.
- The server's `/meeting-workbook` error answer (500) is not modelled. It only arises from the network or HTML failures above.
- MongoDB and Mongoose are modelled as in-memory sequences of documents. Database failures (`catch(e => false)`) are not modelled, and a `$in` or `find` on undefined keys is taken as no match.
- `deleteMany`, `create` and `save` are not awaited in server/api.js:105-118. The model runs them in order, and the race between them and the next request is not modelled.
- A lazily executed Mongoose query may not run at all when it is neither awaited nor executed. `PreviewApi.PreviewCache.Preview` performs the purge as the code intends.
- Sending an e-mail (`sendEmail`) is not modelled. The mailer's answer is the parameter `delivered` of `PreviewApi.Send`.
- `JSON.parse(req.query.isMobile)` is the parameter `isMobile`, which is `None` when parsing throws.
- `getWeekSpan` reads the clock twice in the source: once itself and once in `shouldJumpToNextWeek`. The model reads one `today`.
- The two handlers' `getWeekSpan` dates are parameters of `PreviewApi.Send` and `PreviewApi.PreviewCache.Preview`.
- Contacts without a `name`, `null` entries in the request and items without `hasPair` are not modelled. The shapes are datatypes with the fields the code reads.
- PreviewApi.PreviewCache.Preview: a missing `weekend.chairman_1`, `weekend.reader_2`, `cleaning` or `week` makes the model fail with 400. A present entry that is not an object, or a `ministry` that is not an object, is not modelled.
- RootContext.SortBy: JavaScript's `sort` with a comparator that never returns 0 may order equal keys either way. The model is one fixed insertion sort, and its contract states only a permutation ordered by key.
- The reducer's in-place writes to `oldState` (client/src/components/RootContext.js:65-87) are modelled on values. The aliasing of the returned state with the old one is not modelled.
- `SET_PARTS` and `SET_CLEANING_GROUPS` are modelled as plain stores without a lemma of their own.
- The key order of `Object.keys` and `Object.values` is a parameter `order` that lists every key once.
- AssignmentsPreview.ApplyWeek: the method requires that every `PartItem` object appears once across the parts (`DistinctItems`). Sharing one item object between two parts is not modelled.
- The weekend and ministry `onChange` handlers of the form are plain `assign` calls and are covered by `AssignmentsForm.Assign`. The React rendering, modals, `submitReactFormHook` and `scrollToElement` are not modelled.
- StepByStep's `onBack`, `onNext`, `onConclude` and `onReset` callbacks are not modelled. The callback's awaited result is the parameter `approval` of `StepByStep.Stepper.HandleNext`. Whether `onReset` was passed is the parameter `hasOnReset` of `StepByStep.Stepper.HandleReset`.
- AssignmentsForm.CreateNewMinistryField: it uses the corrected id (see Findings), not the id the code builds.
- AssignmentsForm.ValidateField: an accepted description is stored under the corrected id (see Findings), not the id the code builds.
- AssignmentsForm.ValidateFieldDescription: the store takes the field under the corrected id (see Findings), not the id the code builds.
- AssignmentsForm.AddedFieldIsNew: it states freshness of the corrected id (see Findings); the id the code builds can collide, as `NextFieldIdAsWrittenCollides` shows.
- Js.ToNumber: only the empty string and strings of ASCII digits are numbers. JavaScript's `Number` also accepts surrounding whitespace, a sign, a fraction, an exponent and `0x` forms (`" 7"`, `"-3"`, `"1e2"`, `"0x1A"`); the model gives `None` for them. The keys the form itself creates are `field_service_conductor_` followed by digits.
- Js.ToJsString: `Obj` stands for a plain object, whose `String()` is `[object Object]`. Arrays are not a separate value; `String()` of an array joins its elements, and this is not modelled.
- `generateHash`, `encrypt`, `decrypt`, `to64`, `from64`, `random` and `generateRandomStringSized` are not modelled. They are cryptography and randomness.
- Authentication, deployment and server start-up are not modelled. They are wiring and I/O.

## Findings

| source | as written | input that shows it | evidently intended | confidence | as-written member | corrected member |
|---|---|---|---|---|---|---|
| client/src/components/assignments/AssignmentsForm.js:107-113 | the new id is one more than the suffix of the greatest key in string order | fields `field_service_conductor_9` and `field_service_conductor_10` (the first eight removed): `_9` sorts last, so the new id is `field_service_conductor_10`, which overwrites an existing field | one more than the greatest numeric suffix, so the id is always new | not executed | AssignmentsForm.NextFieldIdAsWrittenCollides | AssignmentsForm.NextFieldIdFresh |
