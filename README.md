# autoru-updates: the car-listing tracker, modelled in Dafny

autoru-updates watches search-result pages of a car-sale site. A queue of
saved search links runs one link at a time. For each link, a headless
browser opens the result page (`parser.js`). Each listed car is reduced to
an id, a url and image paths. The cars are then saved in a SQLite table
keyed by car id and link (`db.js`). Each pass over a link is a numbered
*sequence*. Comparing the sequence markers stored on every car tells which
cars are new, which are gone and which are unchanged since the last pass.
A web interface (`http_interface.js`) shows the results through a few
template helpers and a car sorter.

This project models four parts of that code and proves properties of them:

* `car_store.dfy` (module `CarStore`) covers the pass-diff engine of db.js.
  * `saveCar` upserts one car.
  * `saveCars` stamps the batch, upserts it in order, classifies the link's
    cars as created, removed or not changed, and writes the counts.
  * `createSequence` and `updateSequence` manage the sequence rows.
  * The store is the class `Store`. Its car table is a map keyed by
    `(id, linkId)`.
  * Each method states its effect against a specification. `SaveCar`
    follows `SaveCarSpec`, `SaveBatch` follows `SaveAll`, and `SaveCars`
    follows `SaveAll` and `ClassifyRows`. `StampBatch` follows `Stamp`, and
    `FindAllByLink` follows `LinkKeys`. `CreateSequence` and
    `UpdateSequence` are stated as updates of the sequence map. The lemmas
    are about these functions.
* `link_queue.dfy` (module `LinkQueue`) covers the single-flight queue of
  db.js: `checkQueue`, `executeQueueItem`, `moveItemToQueueFront`,
  `runLinkById`, `runLinkByUrl`, `filterLinkOutput` and the start-time
  stagger of `initQueue`.
  * The steps are pure functions on a `QueueState`.
  * The asynchronous scraping pipeline is split into a start step and a
    completion step (success or failure).
  * The class `Queue` holds the same state in fields. Its methods are proved
    to perform those steps.
* `parser.dfy` (module `Parser`) covers the page logic of parser.js.
  * `createUrl` and the page default of `processPage`.
  * The pure part of the `parsePage` callback: which listing items are kept,
    the cars map keyed by id, image-path trimming, and the pager test.
* `display_helpers.dfy` (module `DisplayHelpers`) covers the helpers of
  http_interface.js: `stripUrl`, `equals`, `latest`, `money` and
  `carSorter`. `CarSorter` stands for `Array.prototype.sort` with the same
  comparator, and is implemented here as an in-place insertion sort.
* `text.dfy` (module `Text`) is shared string support: decimal rendering
  and parsing, substring search, and JavaScript's `split('/')` and
  `join('/')`.
* `wrappers.dfy` (module `Wrappers`) holds the `Option` and `Result` types.

Time is integer milliseconds. The clock, the browser and the database
engine become parameters or class state.

Where the code differs from its documented intent, the model follows the
code, with one exception, the due test of `checkQueue` (listed under
"## Findings"). `LinkQueue.Check`, `LinkQueue.Queue.CheckQueue` and the
`Tick` event use the intended test: a link with a NULL `nextRun` is due.
The test as written is `LinkQueue.DecisionAsWritten`, which throws for that
link. The differences the model does follow:

* A car that disappears and later comes back keeps the `sequenceId` of its
  first pass. It is therefore reported as not changed, not as created
  (`CarStore.LaterPasses`).
* `removed` lists every stored car of the link that the pass did not see,
  including cars already reported removed by earlier passes
  (`CarStore.LaterPasses`).
* A pipeline that fails never clears `runningJob`, so the queue stops for
  good (`LinkQueue.FailureStallsQueue`).

## Model

| member | source | states |
|---|---|---|
| Text.DecimalRoundTrip | parser.js:63 | The decimal text a page number is written as reads back as that number, negatives included. |
| Text.BeforeFirst | parser.js:61-62 | `split(sep)[0]` is a prefix of the string. When `sep` occurs, the prefix ends exactly where its first occurrence begins; otherwise it is the whole string. It contains no `sep` itself. |
| Text.JoinSplit | parser.js:93-95 | Joining the `/`-split segments with `/` gives back the original string. |
| Text.SplitJoin | parser.js:93-95 | Splitting the `/`-join of a non-empty list of slash-free segments gives back the list. Empty segments are allowed. |
| Text.JoinAppend | parser.js:95 | Joining two non-empty segment lists end to end is joining each and putting one `/` between them. |
| Parser.CreateUrl | parser.js:60-65 | The new URL agrees with the old one up to the first `&page_num_offers`, and its page parameter reads back as the requested page. |
| Parser.FirstParamAfterHead | parser.js:61-63 | When the head has no `&page_num_offers`, the first occurrence in head followed by the parameter is exactly where the head ends. |
| Parser.CreateUrlAppends | parser.js:61-64 | A URL without `&page_num_offers` gets `&page_num_offers=` and the page appended. |
| Parser.CreateUrlReplacesPage | parser.js:54-65 | The page parameter is replaced, not accumulated: rewriting twice is rewriting once with the last page. |
| Parser.RequestedPage | parser.js:46-48 | The page requested is never 0. It is the given page when that is non-zero, and 1 when the page is missing or 0. |
| Parser.TrimKeepsMiddleSegments | parser.js:93-95 | For paths of four or more segments, the trimmed path splits into exactly the segments between the first two and the last. The original path is those first two, the trimmed path and the last segment, joined by `/`. |
| Parser.TrimShortPath | parser.js:93-95 | A path of three segments or fewer trims to the empty string. |
| Parser.ImagePathsAppend | parser.js:90-98 | The image paths of two image lists, one after the other, are the paths of each in order (the reduce is a fold). |
| Parser.ImagePathsOfOne | parser.js:92-96 | An image contributes its trimmed path when it has `data-original`, and nothing otherwise. |
| Parser.CollectImagePaths | parser.js:89-98 | The reduce over the images yields exactly the image paths of the list. |
| Parser.CollectCarsKeys | parser.js:80-108 | The cars map holds exactly the ids of the items that carry `data-bem`. |
| Parser.LastWriteWins | parser.js:101-107 | An item is what the map holds under its id when no later kept item has the same id. |
| Parser.ParsePage | parser.js:71-122 | The result is `false` exactly when there is no pager with `data-bem`. Otherwise it holds the cars map built from the items and the decoded pager. |
| Parser.ProcessPage | parser.js:45-52 | The page opened is exactly `CreateUrl` of the input URL and the defaulted page number, so it has the input URL's head and that page number. Its parse result is `false` exactly when that page has no usable pager; otherwise it holds that page's cars and pager. |
| CarStore.DistinctKeysCount | db.js:233-237 | Rows with pairwise distinct keys are as many as their keys. |
| CarStore.StatusesPartition | db.js:241-253 | Created, removed and not changed split the link's stored cars into three disjoint sets that together cover them, and their sizes add up to the number of cars. |
| CarStore.SaveCarSpec | db.js:263-284 | The upsert adds the car's key and touches no other row. A stored car only gets `sequenceLastChecked`. A new car is stored with `sequenceId` equal to its `sequenceLastChecked`. |
| CarStore.SaveAllAt | db.js:225-230 | After a stamped batch: the keys are the old keys plus the input keys. An unnamed row is untouched. A known row keeps everything but gets the pass as `sequenceLastChecked`. A new row carries the pass in both markers. |
| CarStore.FirstInstanceInserted | db.js:275-279 | A new car is stored as its first occurrence in the batch, with `sequenceId` set to the pass. |
| CarStore.SaveAllValid | db.js:263-284 | Every stored row stays filed under its own `(id, linkId)`. |
| CarStore.SaveAllIdempotent | db.js:225-230 | Saving the same stamped batch twice leaves the table as saving it once. |
| CarStore.ClassifyRowsSound | db.js:241-253 | A row is in a status list exactly when it is among the rows and has that status. Distinct rows give distinct lists. |
| CarStore.ClassifyRowsCount | db.js:241-253 | The three lists together are as long as the row list. |
| CarStore.Classify | db.js:237-253 | The classifying loop yields the classification of the rows. |
| CarStore.ClassifyRowsOfLink | db.js:233-253 | Classifying the link's rows gives, per status, exactly the stored cars of the link with that status, once each. |
| CarStore.ClassifyListOfLink | db.js:233-253 | The same, for one status list. |
| CarStore.StampedKeys | db.js:225-228 | The stamp files every input car under `(id, link.id)`, whatever linkId it came with, and marks it checked in the pass. |
| CarStore.FreshPassClassification | db.js:241-253 | For a pass newer than every stored marker: created are the input cars not stored before, and not changed are the input cars stored before (a car that comes back included). Removed are the stored cars of the link the input did not name. |
| CarStore.KeysOfOneLinkCount | db.js:227 | Keys of one link are as many as their car ids. |
| CarStore.FreshPassCounts | db.js:241-253 | For such a pass, created plus not changed is the number of distinct input ids. |
| CarStore.NextPassIsNewer | db.js:227-228 | After a pass, a later pass is newer than every marker of the link. |
| CarStore.OnePass | db.js:209-261 | One fresh pass in terms of the link's keys: what it reports, the link's keys afterwards, and that the next pass is fresh again. |
| CarStore.KeysOfTwo | db.js:227 | A batch listing two ids is filed under those two keys of the link. |
| CarStore.FirstPasses | db.js:209-261 | On an empty link, passes {x, y} then {x, z} create x and y, then create z and remove y. |
| CarStore.LaterPasses | db.js:209-261 | Then {x, y} reports y as not changed (not created) and z as removed. A pass with {x} then reports y and z both as removed. |
| CarStore.Store.constructor | db.js:151-157 | The store starts as a purged database: no cars and no sequences. |
| CarStore.Store.CreateSequence | db.js:186-190 | A fresh sequence id is allocated with zero counters; cars are untouched. |
| CarStore.Store.UpdateSequence | db.js:192-207 | An existing sequence row gets the three counters; a missing one changes nothing. |
| CarStore.Store.SaveCar | db.js:263-284 | The table becomes `SaveCarSpec` of the old table and the car. |
| CarStore.Store.FindAllByLink | db.js:233-237 | The rows returned are exactly the stored cars of the link, once each. |
| CarStore.Store.StampBatch | db.js:225-228 | The input array is stamped in place. |
| CarStore.Store.SaveBatch | db.js:225-231 | The batch is upserted in input order (`SaveAll`). Each array element ends up as the object `saveCar` leaves behind. |
| CarStore.Store.SaveCars | db.js:209-261 | An empty batch changes nothing and resolves to undefined. Otherwise: the table is the stamped batch upserted, and the outcome lists are the link's cars by status. The sequence row gets the three list lengths. No row is deleted. |
| LinkQueue.EarliestIndex | db.js:325-327 | The row `findOne` ordered by `nextRun ASC` returns: none for an empty table, else one no row runs before (NULL first), earliest in table order among ties. |
| LinkQueue.EarliestUnique | db.js:325-327 | That row is unique. |
| LinkQueue.DecisionAsWritten | db.js:335-336 | As written, the check throws exactly when `nextRun` is NULL, and otherwise decides as intended. |
| LinkQueue.NullNextRunThrows | db.js:325-336 | While any link has a NULL `nextRun`, it is the earliest, and every check throws where the intended test would run it. |
| LinkQueue.Start | db.js:343-349 | A pipeline starts exactly for a present link with a truthy id while no job runs; it sets the flag to that id. |
| LinkQueue.Check | db.js:323-341 | A check starts a pipeline exactly when the queue is idle and the earliest link has a truthy id and is due, and it starts it for that link; otherwise nothing changes. The due test is the intended one (a NULL `nextRun` is due); the code as written throws there, see `LinkQueue.DecisionAsWritten`. |
| LinkQueue.Succeed | db.js:350-356 | Success clears the flag and the pipeline. Every row with the finished link's id gets `nextRun = finish + runPeriod * 60000`, using the held object's `runPeriod`. Every other row is unchanged. |
| LinkQueue.FailAsWritten | db.js:349-358 | Failure keeps the table and the flag; only the pipeline is gone. |
| LinkQueue.FilterLinkOutput | db.js:394-399 | The output is `{id, url}` of the link, or both undefined for `false`. |
| LinkQueue.FirstIndex | db.js:371-387 | `findOne` by id (`HasId`) or by url (`HasUrl`) finds the first row meeting the condition, or reports that none does. |
| LinkQueue.RunNow | db.js:362-369 | Run-now never touches the flag or the running pipeline. A missing row or one with a falsy id is left alone and reported as undefined. Otherwise only the found row changes: its `nextRun` becomes `now`, and the output is its `{id, url}`. |
| LinkQueue.Staggered | db.js:293-301 | The k-th link is given `now + k * 30000` as its next start. |
| LinkQueue.SingleFlight | db.js:347 | While the flag is set, no check and no direct start begins a second pipeline. |
| LinkQueue.DueLinkStartsWhenIdle | db.js:336-338 | An idle queue whose earliest link is due starts that link. |
| LinkQueue.NotDueNothingStarts | db.js:336-340 | If the earliest link is not yet due, nothing starts. |
| LinkQueue.SuccessReschedules | db.js:351-356 | After success the finished link is not due at any time up to `finish + runPeriod * 60000` and is due at every time after it. Other rows are unchanged. |
| LinkQueue.RunNowDueLater | db.js:362-369 | The run-now row is the old row with `nextRun = now` and nothing else changed. It is due at any later time, the output names it, and other rows are unchanged. |
| LinkQueue.StaggerOrder | db.js:293-301 | Staggered links start in table order, `30000` ms apart, and the first one is the earliest. |
| LinkQueue.StepKeepsInv | db.js:343-358 | Every event keeps the flag invariant: the flag names the running link and is never a falsy id. |
| LinkQueue.RunKeepsInv | db.js:343-358 | So does any run of events. |
| LinkQueue.FailureStallsQueue | db.js:347-358 | After a failure, whatever events follow, the flag stays set and no pipeline starts again. |
| LinkQueue.StalledStaysStalled | db.js:347 | A set flag with no pipeline stays so under any run of events. |
| LinkQueue.Queue.constructor | db.js:12 | The queue starts idle over the link table. |
| LinkQueue.Queue.StaggerStartTimes | db.js:293-301 | The loop writes the staggered start times; the flag is untouched. |
| LinkQueue.Queue.FindEarliest | db.js:325-327 | The scan returns `EarliestIndex` of the table. |
| LinkQueue.Queue.ExecuteQueueItem | db.js:343-349 | Performs `Start`. |
| LinkQueue.Queue.CheckQueue | db.js:323-341 | Performs `Check`, with the due test as intended. As written, a NULL `nextRun` throws (`LinkQueue.DecisionAsWritten`). |
| LinkQueue.Queue.CompleteSuccess | db.js:350-356 | Performs `Succeed` followed by the closing check. |
| LinkQueue.Queue.CompleteFailure | db.js:349-358 | Performs `FailAsWritten`. |
| LinkQueue.Queue.RunLinkById | db.js:371-378 | Performs run-now on the row found by id. |
| LinkQueue.Queue.RunLinkByUrl | db.js:380-387 | Performs run-now on the row found by url. |
| LinkQueue.Queue.MoveToFront | db.js:362-369 | Performs `RunNow` on a found row. |
| DisplayHelpers.StripUrl | http_interface.js:16-21 | A short or empty url is unchanged. A longer one becomes a prefix of the url plus `...`, at most `max + 3` long. |
| DisplayHelpers.StripUrlIdempotent | http_interface.js:16-21 | Stripping a stripped url with the same limit changes nothing. |
| DisplayHelpers.EqualsBlock | http_interface.js:25-30 | The block body is chosen exactly when the two values are identical. |
| DisplayHelpers.EqualsBlockSymmetric | http_interface.js:25-30 | Swapping the two values does not change the choice; a value equals itself. |
| DisplayHelpers.Latest | http_interface.js:31-33 | Fails exactly on an empty array. Otherwise it gives the last element's attribute, or undefined when that element lacks it. |
| DisplayHelpers.LatestOfAppended | http_interface.js:31-33 | Only the last element matters. |
| DisplayHelpers.GroupLength | http_interface.js:38-46 | Grouping a non-empty string of length n keeps its first character in front and adds `(n - 1) div 3` spaces, one per full group of three after it. |
| DisplayHelpers.Money | http_interface.js:34-47 | Falsy input gives the empty string. Otherwise the reversed reduce produces the grouped string form of the input. |
| DisplayHelpers.MoneyStep | http_interface.js:38-46 | One step of the reduce over the reversed digits appends the next character, with a space before it when a positive multiple of three have gone before. |
| DisplayHelpers.ReverseCons | http_interface.js:39-46 | Reversing a character, an optional space and a group is reversing the group, then the space, then the character. This is how each reduce step pushes onto the reversed accumulator. |
| DisplayHelpers.RemoveSpacesAppend | http_interface.js:38-46 | Removing spaces distributes over concatenation. |
| DisplayHelpers.GroupRemoveSpaces | http_interface.js:38-46 | Deleting the spaces from `money(s)` gives `s` with its own spaces deleted. |
| DisplayHelpers.GroupLayout | http_interface.js:38-46 | Counted from the right from 0, position `4q + 3` of the grouping is a space and position `4q + r` (r < 3) is the input's character `3q + r` from the right. So every fourth character is a space, the digits keep their order in groups of three, and the leftmost group has one to three characters. |
| DisplayHelpers.Direction | http_interface.js:62-77 | The direction is -1 exactly when the parsed value is 0. A missing, non-numeric or any other value gives 1. |
| DisplayHelpers.SortKey | http_interface.js:69-71 | The sort key is `createdAt` when no `orderby` is given. |
| DisplayHelpers.OrderedByDirection | http_interface.js:79-87 | Under the comparator, direction 1 orders by non-increasing value and direction -1 by non-decreasing value. |
| DisplayHelpers.CarSorter | http_interface.js:61-88 | The same array comes back, permuted in place, ordered by the comparator on the sort key. |
| DisplayHelpers.InsertAt | http_interface.js:79-87 | One insertion step extends the ordered prefix by one element, permutes only that prefix, and keeps the rest. |
| DisplayHelpers.SwapSinks | http_interface.js:79-87 | One swap of the sinking element keeps the multiset and the insertion invariant. |

## Left out

- Sequelize connection, schema and `sync`, and the `findOrCreate` internals of `createLink`. The tables are a map (cars) and a sequence of rows (links). Sequence ids come from a counter.
- `addQueueItem` and `getLink`: both are `createLink` (find-or-create) followed by `filterLinkOutput` or `createSequence`, and the find-or-create is ORM behaviour.
- Timers (`setInterval`, `clearInterval`, `startQueue`, `stopQueue`, `promiseTimeout`): a tick is a call to `CheckQueue` or a `Tick` event.
- The asynchronous pipeline (`parser.process`) is not part of this model. Its outcome is an explicit success or failure step. Store errors swallowed by `.catch` in `saveCar` are not modelled.
- PhantomJS, DOM queries and `JSON.parse`. A page is a `Document` record. An item's id is the integer `parseInt` would give. An id that parses to `NaN` (stored under the key "NaN") is not modelled.
- CarStore.Store.SaveCars: a batch that is not an array cannot be represented by an `array<Car>`, so only the empty-batch half of the early return is modelled.
- `momentFromNow` (locale and clock dependent) and the `localeCompare` branch of `carSorter` (locale collation). The sorter sorts integer and timestamp columns only.
- DisplayHelpers.CarSorter: requires every row to have the sort attribute. A missing one gives `NaN` comparisons, and the order the engine then produces is unspecified. The contract states an ordered permutation, not the engine's stability, so which of two equal-keyed rows comes first is not fixed.
- DisplayHelpers.Direction: takes the value `parseInt` yields (`None` for `NaN`); the digit scanning of `parseInt` is not modelled.
- DisplayHelpers.Money: handles strings and integers; non-integer numbers and other objects' `toString` are not modelled.
- DisplayHelpers.EqualsBlock: `===` is modelled as equality of values of one type; `NaN !== NaN` and comparisons across types are not modelled.
- DisplayHelpers.StripUrl: takes a string; an `undefined` url (returned as is) is represented by the empty string.
- DisplayHelpers.StripUrl: strings are sequences of Unicode characters. JavaScript's `length` and `substr` count UTF-16 code units, so a character outside the basic plane (an emoji, say) counts twice there and `substr` can split it; the model counts it once.
- DisplayHelpers.Money: the digits of a `Number` come from `Text.IntToDecimal`, which writes any integer as plain digits. JavaScript's `toString` switches to exponent form (`1e+21`) from 10^21 up and loses precision above 2^53, so the model's grouping of such numbers is not what the code prints. A string amount is counted in characters, not UTF-16 code units (as for `StripUrl`).
- Parser.CreateUrl: the page number is an unbounded integer written by `Text.IntToDecimal`. A page from 10^21 up, or above 2^53, would be printed differently by JavaScript. `Text.DecimalRoundTrip` holds for the model's decimal form only.
- Text.IntToDecimal: plain decimal digits for every integer. JavaScript's number-to-string conversion (exponent form, 53-bit precision) is not modelled.
- LinkQueue.Check: uses the intended due test, under which a NULL `nextRun` is due. The code as written throws for that link and starts nothing. That behaviour is modelled separately by `LinkQueue.DecisionAsWritten` and `LinkQueue.NullNextRunThrows` (see "## Findings").
- LinkQueue.EarliestIndex: SQL leaves the order of rows tied on `nextRun` unspecified. The model takes the first such row in table order.
- Express routing, sessions, mail, the Telegram bot and the other scripts are outside this model.

## Findings

| source | as written | input that shows it | evidently intended | confidence | as-written member | corrected member |
|---|---|---|---|---|---|---|
| db.js:335-336 | The log line calls `link.nextRun.getTime()` before the test `!link.nextRun \|\| ...`, so a NULL `nextRun` throws inside the `.then`. NULL sorts first, so while any link has a NULL `nextRun` every check fails and nothing runs. | a link row with `nextRun` NULL (the column is nullable) | a link without a start time is due and runs | not executed | LinkQueue.NullNextRunThrows | LinkQueue.DueLinkStartsWhenIdle |
