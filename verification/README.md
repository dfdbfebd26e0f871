# Process dashboard core in Dafny

This is a Dafny model of the logic behind a small dashboard for a workflow platform's processes and process instances. It covers four pieces:

- **Instance details** (`fetchInstanceDetails`). The dashboard derives a detail pane from three remote answers: the instance's variables, its BPMN XML and its execution history. The variables are filtered and grouped by source. The id of the last executed element is looked up in the BPMN text with the regular expression `<bpmn:(\w+)\s+id="ID"`. The matched tag becomes a spaced activity label. For a user task, the action-center task link is taken from the first history entry for that element.
- **Cursor pagination** of the instance list. This covers the page state, the initial load of the process list, the next and previous buttons, the state update once a page fetch settles, and the reset when the process filter changes.
- **The shared formatters**. These are the status badge colour, the duration text, the process-name prettifier and the embed-URL rewrite.
- **The process overview**. This covers the ordering of process cards, the colour of each card's left border, the inline card title and the four statistics tiles.

Remote calls, clocks and date parsing are outside the model. Their results arrive as arguments:

- `None` stands for a call that threw.
- Dates arrive already converted to milliseconds.
- "Today's midnight" is a parameter.

Modules:

- `Wrappers`: `Option`.
- `Strings`: ASCII case mapping, JavaScript `trim`, `split` and `join`, and integer rendering.
- `Seqs`: `filter` and its laws.
- `Sdk`: the SDK records.
- `InstanceDetails`, `Pagination`, `Formatters` and `ProcessList`: the four pieces above.

## Model

| member | source | states |
|---|---|---|
| InstanceDetails.EndDate | src/components/ProcessInstances.tsx:183 | the end date is the completion time when it is a non-empty string, otherwise "Not Completed" |
| InstanceDetails.LastElementId | src/components/ProcessInstances.tsx:192-193 | the element id is that of the last element, and absent when there are no elements |
| InstanceDetails.FilterVariables | src/components/ProcessInstances.tsx:198-212 | the two chained filters keep exactly the variables whose lower-cased type is not any/jsonschema/object and whose value is not null/undefined and does not trim and lower-case to "", "null" or "undefined"; input order is kept |
| InstanceDetails.FilterVariablesIdempotent | src/components/ProcessInstances.tsx:198-212 | filtering the survivors again removes nothing |
| Sdk.JsString | src/components/ProcessInstances.tsx:206 | `String(value)` returns a string unchanged, renders an integer so it parses back, and renders an empty array as "" |
| InstanceDetails.EmptyArrayDropped | src/components/ProcessInstances.tsx:204-212 | a variable holding an empty array renders as "" and is filtered out |
| InstanceDetails.KeysOfSpec | src/components/ProcessInstances.tsx:214 | a group key occurs exactly when some variable has that source, or has no source and falls under "Unknown" |
| InstanceDetails.GroupStep | src/components/ProcessInstances.tsx:213-223 | one `forEach` step appends the entry to its source's group, or creates the group; the groups stay exact and their total size grows by one |
| InstanceDetails.BucketsSpec | src/components/ProcessInstances.tsx:213-223 | after the `forEach`, each key's group holds exactly that source's variables in input order, each group is non-empty, and the entries add up to the number of variables |
| InstanceDetails.BucketBySource | src/components/ProcessInstances.tsx:196-223 | the loop builds exactly that grouping, unless some variable's key names a property every object inherits (such as "constructor" or "toString"); there `push` is not a function and throws, and the grouping is abandoned (None) exactly in that case |
| InstanceDetails.DropEmptyGroups | src/components/ProcessInstances.tsx:226-230 | the deletion pass removes exactly the empty groups and leaves the others untouched |
| InstanceDetails.GroupBySource | src/components/ProcessInstances.tsx:196-232 | grouping followed by the deletion pass yields the exact grouping of the survivors, nothing lost or duplicated; it yields nothing exactly when a survivor's key is an inherited property name |
| InstanceDetails.InheritedSourceExample | src/components/ProcessInstances.tsx:214-218 | a shown variable whose source is "constructor" makes the grouping throw |
| InstanceDetails.WordRun | src/components/ProcessInstances.tsx:263 | `\w+` consumes the maximal run of word characters |
| InstanceDetails.SpaceRun | src/components/ProcessInstances.tsx:263 | `\s+` consumes the maximal run of whitespace |
| InstanceDetails.MatchAt | src/components/ProcessInstances.tsx:263 | a match at a position captures a non-empty tag that fits inside the text; MatchAtSound and MatchAtComplete show it matches exactly the occurrences of the pattern |
| InstanceDetails.MatchAtSound | src/components/ProcessInstances.tsx:263 | every match reported at a position is an occurrence of `<bpmn:TAG WS id="ID"` there |
| InstanceDetails.MatchAtComplete | src/components/ProcessInstances.tsx:263 | every occurrence of the pattern at a position is reported there, with its tag |
| InstanceDetails.FirstMatch | src/components/ProcessInstances.tsx:263 | the search returns the leftmost matching position at or after its start, or reports that there is none |
| InstanceDetails.FindTag | src/components/ProcessInstances.tsx:263-264 | the capture group is a non-empty run of word characters at the leftmost match; there is no result exactly when no position matches |
| InstanceDetails.SpaceBeforeUpper | src/components/ProcessInstances.tsx:265 | the replacement is empty exactly for an empty tag; SpaceBeforeUpperRestores and SpaceBeforeUpperSpacing show it inserts one space before each capital and nothing else |
| InstanceDetails.Humanize | src/components/ProcessInstances.tsx:265 | after `trim` the label has no whitespace at either end; HumanizeHead and HumanizeShape give its exact shape |
| InstanceDetails.SpaceBeforeUpperRestores | src/components/ProcessInstances.tsx:265 | putting a space before each capital and then dropping the spaces gives the tag back |
| InstanceDetails.SpaceBeforeUpperSpacing | src/components/ProcessInstances.tsx:265 | in the spaced text, a space stands exactly before each capital and nowhere else |
| InstanceDetails.HumanizeHead | src/components/ProcessInstances.tsx:265 | `trim` only removes the space put in front of a leading capital |
| InstanceDetails.HumanizeShape | src/components/ProcessInstances.tsx:265 | the label without its spaces is the tag; its spaces sit exactly before the inner capitals; it never starts with a space |
| InstanceDetails.CamelInvertsLowerSpaced | src/components/ProcessInstances.tsx:265-268 | the lower-cased spaced label of a tag determines the rest of the tag |
| InstanceDetails.HumanizeUserTask | src/components/ProcessInstances.tsx:265 | "userTask" becomes "user Task" and "UserTask" becomes "User Task" |
| InstanceDetails.UserTaskTags | src/components/ProcessInstances.tsx:263-268 | a label lower-cases to "user task" if and only if the matched tag is "userTask" or "UserTask" |
| InstanceDetails.FindEntry | src/components/ProcessInstances.tsx:272-278 | `find` returns the first history entry whose attributes carry the element id, or reports that none does |
| InstanceDetails.TaskLink | src/components/ProcessInstances.tsx:268-286 | a link is produced only for a label that lower-cases to "user task" and a non-empty history; TaskLinkFirst and TaskLinkTaken pin it to the first matching entry's `actionCenterTaskLink` |
| InstanceDetails.TaskLinkFirst | src/components/ProcessInstances.tsx:268-286 | a task link is only set for a user-task label, and then it is the link of the first history entry for the element |
| InstanceDetails.TaskLinkTaken | src/components/ProcessInstances.tsx:268-286 | for a user-task label, the first matching entry's link is taken |
| InstanceDetails.MatchedTag | src/components/ProcessInstances.tsx:262-264 | a tag is matched only when the element id and the BPMN text are both non-empty, and then it is the leftmost match of the pattern; it is a non-empty run of word characters |
| InstanceDetails.Correlate | src/components/ProcessInstances.tsx:259-292 | a task link is set only when the element id and the BPMN text are present and the label reads "user task"; the lemmas CorrelateActivity, CorrelateMissingInput, CorrelateTaskLinkOnly and CorrelateTaskLinkTaken characterise the rest |
| InstanceDetails.CorrelateMissingInput | src/components/ProcessInstances.tsx:259-264 | without a non-empty element id and BPMN text the activity is "Unknown" and there is no task link |
| InstanceDetails.CorrelateActivity | src/components/ProcessInstances.tsx:259-266 | the activity is "Unknown" with no link when no tag matches, and the humanised tag otherwise |
| InstanceDetails.CorrelateTaskLinkOnly | src/components/ProcessInstances.tsx:259-292 | a task link is set only for the tags "userTask" and "UserTask", and it is the first matching history entry's link |
| InstanceDetails.CorrelateTaskLinkTaken | src/components/ProcessInstances.tsx:259-292 | for those two tags, the first matching history entry's link is the task link |
| InstanceDetails.ProcessVariables | src/components/ProcessInstances.tsx:190-232 | the variables step yields the last element id; it yields the exact grouping of the filtered variables, or nothing exactly when a survivor's key is an inherited property name, in which case the element id is still kept |
| InstanceDetails.FetchInstanceDetails | src/components/ProcessInstances.tsx:165-292 | without the instance service the handler returns at once and publishes no pane; otherwise the finished pane is not loading and shows the requestor and end date; it has variables exactly when their call succeeded and the grouping did not throw, and they are then grouped exactly; the activity and task link come from the correlation, with an empty history when that call failed |
| InstanceDetails.ShownLink | components/InstanceDetails.tsx:249-250 | the Tasks panel offers a link exactly when the activity lower-cases to "user task" and the stored link is truthy, and then it is the stored link |
| InstanceDetails.ShownLinkOfCorrelation | components/InstanceDetails.tsx:249-250 | for a pane built by the correlation, a link is shown exactly when the stored link is truthy |
| InstanceDetails.FalsyLinkHidden | components/InstanceDetails.tsx:250 | a stored link of null, undefined or "" shows as no link |
| InstanceDetails.FindTagExample | src/components/ProcessInstances.tsx:263 | on `<bpmn:userTask id="elem1">` the tag for "elem1" is "userTask" |
| InstanceDetails.TaskLinkExample | src/components/ProcessInstances.tsx:268-286 | a user-task label picks up the link of the matching history entry |
| Pagination.RequestFor | src/components/ProcessInstances.tsx:91-95 | the request has page size 25 and the given cursor; it filters by package exactly when the selected process is not "all" |
| Pagination.PagesFor | src/components/ProcessInstances.tsx:112 | `Math.ceil(total / 25)` is the least page count that covers the total |
| Pagination.ApplyFetch | src/components/ProcessInstances.tsx:97-123 | a loaded page sets the items, the next flag and both cursors; the previous flag is set exactly when there is a previous cursor; total and page count change only for a truthy total, and the page number only for a truthy page; a failure clears the items, shows the thrown error's message (or "Failed to fetch instances" for a non-Error) and changes nothing else |
| Pagination.GoToNextPage | src/components/ProcessInstances.tsx:149-154 | with the next flag and cursor, the page goes up by one and the next cursor is fetched, unless the instance service is missing, in which case the fetch returns at once (line 84) and no request goes out; without the flag and cursor nothing happens |
| Pagination.GoToPreviousPage | src/components/ProcessInstances.tsx:156-161 | with the previous flag and cursor, the page goes down by one and the previous cursor is fetched, unless the instance service is missing, in which case no request goes out; without the flag and cursor nothing happens |
| Pagination.ResetForFilter | src/components/ProcessInstances.tsx:74-81 | when ready, a filter change resets to page 1, clears both cursors and fetches the first page; otherwise nothing happens |
| Pagination.FetchData | src/components/ProcessInstances.tsx:129-146 | once the process list arrives it is stored and the first page is requested with no cursor; a failure empties the processes and instances and shows the thrown error's message (or "Failed to fetch data") without fetching a page; without the service nothing happens |
| Pagination.InitialFlagMatches | src/components/ProcessInstances.tsx:46-52 | the initial state starts on page 1 with no instances, and its previous flag matches its (absent) previous cursor |
| Pagination.PreviousFlagKept | src/components/ProcessInstances.tsx:104-107 | the previous flag stays in step with the previous cursor across fetches and navigation |
| Pagination.NavigationAfterReset | src/components/ProcessInstances.tsx:74-81 | right after a reset, neither button does anything |
| Pagination.ResetThenLoad | src/components/ProcessInstances.tsx:74-118 | a reset followed by a first page that names no page number leaves page 1 with that page's items |
| Pagination.NextThenPreviousPage | src/components/ProcessInstances.tsx:149-161 | forward then back, with both fetches failing, returns to the starting page number |
| Formatters.StatusColor | utils/formatters.ts:1-20 | each badge class is chosen exactly for its statuses, compared case-insensitively; everything else is grey |
| Formatters.StatusColorIgnoresCase | utils/formatters.ts:2 | the class depends only on the lower-cased status |
| Formatters.StatusColorSynonyms | utils/formatters.ts:5-16 | completed/successful, faulted/failed, pending/waiting and cancelled/canceled share a class |
| Formatters.StatusColorDefault | utils/formatters.ts:14-18 | an unnamed status gets the same class as "cancelled" |
| Formatters.JsRem | utils/formatters.ts:33-37 | JavaScript's `%` agrees with the mathematical remainder on non-negative operands |
| Formatters.Breakdown | utils/formatters.ts:27-40 | the shape is chosen by the largest non-zero unit; the counts are in range and bracket the duration |
| Formatters.FormatDuration | utils/formatters.ts:22-41 | the text splits at its spaces into exactly the unit words of the breakdown; FormatDurationRoundTrip reads it back |
| Formatters.FormatDurationRoundTrip | utils/formatters.ts:22-41 | the duration text can be read back into the same shape and unit counts |
| Formatters.FormatDurationUnderMinute | utils/formatters.ts:39 | under a minute, only the floored seconds are shown |
| Formatters.ReplaceSeparators | utils/formatters.ts:45-46 | dots and underscores become spaces and nothing else changes |
| Formatters.SpaceCaseBoundariesLength | utils/formatters.ts:47 | one space is inserted per lower-to-upper boundary found by the pair-consuming regex |
| Formatters.SpaceCaseBoundariesKeeps | utils/formatters.ts:47 | apart from the inserted spaces, the text is unchanged |
| Formatters.SpaceCaseBoundariesSeparates | utils/formatters.ts:47 | no lower-case letter is directly followed by a capital afterwards |
| Formatters.CapitalizeSpec | utils/formatters.ts:49 | a word becomes capitalised and keeps its case-insensitive content |
| Formatters.FormatProcessName | utils/formatters.ts:43-51 | the title equals the package id with separators and case boundaries spaced, up to letter case; FormatProcessNameNoSeparators and FormatProcessNameWords give the rest |
| Formatters.FormatProcessNameNoSeparators | utils/formatters.ts:43-51 | no dot or underscore survives |
| Formatters.FormatProcessNameWords | utils/formatters.ts:43-51 | the result splits into capitalised words, the same number as the spaced id |
| Formatters.EmbedTaskUrl | utils/formatters.ts:53-67 | a URL that does not parse is returned unchanged |
| Formatters.EmbedTaskUrlPath | utils/formatters.ts:56-63 | a task path /org/tenant/.../id is rewritten to the embed URL with the same origin, organisation, tenant and task id |
| ProcessList.Compare | components/ProcessList.tsx:231-240 | a card may go first exactly when it has more faults, or as many faults and at least as much activity; the result is zero exactly for equal faults and equal activity |
| ProcessList.CompareConsistent | components/ProcessList.tsx:231-240 | the comparator is antisymmetric, total and transitive, as `sort` requires |
| ProcessList.CompareIgnoresPausedAndCancelled | components/ProcessList.tsx:233-234 | paused and cancelled counts play no part in the order |
| ProcessList.SortProcesses | components/ProcessList.tsx:230-240 | the sort keeps the number of cards; SortProcessesPermutes, SortProcessesSorted and SortProcessesStable show it is the stable sort by the comparator |
| ProcessList.SortProcessesPermutes | components/ProcessList.tsx:230-240 | sorting keeps exactly the same cards |
| ProcessList.SortProcessesSorted | components/ProcessList.tsx:230-240 | the sorted cards are ordered by faults, then by activity |
| ProcessList.SortProcessesStable | components/ProcessList.tsx:230-240 | cards the comparator ranks as equal keep their input order |
| ProcessList.BorderColor | components/ProcessList.tsx:243-248 | rose exactly when there are faults, then amber for running instances, then emerald for completed ones, else slate |
| ProcessList.HeaderTitle | components/ProcessList.tsx:259-265 | the inline card title is the shared process-name formatter applied to the package id |
| ProcessList.ComputeStats | components/ProcessList.tsx:63-92 | the process total is the number of processes; a non-paginated answer gives zero instances; the daily tiles never exceed today's instances |
| ProcessList.ComputeStatsCounts | components/ProcessList.tsx:74-91 | each tile counts exactly the instances with its statuses, and the daily tiles count only those started today |
| ProcessList.NothingStartedToday | components/ProcessList.tsx:74-91 | with nothing started today, both daily tiles are zero |

## Left out

- The remote calls are arguments: `getVariables`, `getBpmn`, `getExecutionHistory`, `getAll` and the processes call. So are the `console` logging, the loading flags and React's state batching. A thrown call is `None`.
- The `if (!processInstances) return` and `if (!maestroProcesses) return` guards, and the authentication check, are `ready` flags. `ResetForFilter` and `FetchData` skip everything without it. `GoToNextPage` and `GoToPreviousPage` still move the page number, because it is set before the early return of `fetchInstancesPage` (src/components/ProcessInstances.tsx:84); they only drop the request. `FetchInstanceDetails` publishes no pane (line 166). `FetchData` has one flag for both of its guards: one SDK creates both services (lines 30-38), so they are there or missing together. The mount effect that calls `fetchData` (src/components/ProcessInstances.tsx:67-71) is that call with `ready` set.
- Overlapping fetches are not modelled. When two page fetches race, the later-settling one wins. The model applies one settled outcome at a time.
- Date parsing and the clock are parameters:
  - `new Date(...)`, `getTime()` and `new Date()` are not modelled; durations arrive as milliseconds.
  - A start date that does not parse (`NaN`) is `None` and never counts as today.
  - `formatDuration` of an invalid date ("NaNs") is not modelled.
- Floating point is not modelled. Numbers are integers: `JsValue.JInt`, the counts and the milliseconds. The progress-bar widths of the overview are left out.
- Case mapping covers ASCII only. `toLowerCase`, `toUpperCase` and `\w` are modelled on ASCII letters; `\s` is the JavaScript whitespace set restricted to the characters it names.
- InstanceDetails.FindTag: the element id is matched literally. The source interpolates it into the regular expression unescaped, so an id containing regex metacharacters is not modelled.
- InstanceDetails.GroupBySource: the groups are a map, so the enumeration order of the keys of the source's grouping object is not modelled. Neither is how that order is displayed.
- Sdk.JsString: `String(value)` is modelled for null, undefined, booleans, integers, strings and arrays. Arrays join their elements with commas and render null and undefined elements as empty. Any other object renders as "[object Object]". An object with its own `toString`, symbols, bigints and non-integer numbers are not modelled.
- History entries carry their attributes already parsed. `JSON.parse` of a string attribute, and its exception on malformed JSON, are not modelled.
- The entity attachment lookup (src/components/ProcessInstances.tsx:294-319) is not modelled. It is a remote call guarded by an environment variable, and nothing else depends on it.
- Formatters.EmbedTaskUrl: `new URL` is not modelled. Its result is an argument: the origin and pathname, or `None` when it throws.
- Formatters.ReplaceChar: it states that the replaced character is gone only when that character is not a space. Replacing a space by a space is a no-op the source never asks for.
- The filter reset leaves `hasNextPage` and `hasPreviousPage` at their old values. This is modelled as written, and `NavigationAfterReset` states its consequence.
- The rendering (JSX, class names beyond the modelled strings) and the other components are not part of this model. The other components are the instance list, the login screen, the header and the app shell. Of the details view (components/InstanceDetails.tsx) only the Tasks panel's link test is modelled, as `ShownLink`.
