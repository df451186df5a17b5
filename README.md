# Clip channel scheduler — a Dafny model

The system runs a TV-like service over a corpus of short video clips.

- **Exporter.** A job copies newly published clips of one YouTube channel into a document store. Each clip gets a consecutive `number`, and the job keeps a statistics document: the latest clip and the clip count.
- **Scheduler.** Once a day, a second job builds a schedule of four channels. Each channel is a gap-free timeline of clips running from its start time to the next midnight in Japan Standard Time (JST, UTC+9).
  - Clips are drawn at random from a pool that the scheduler loads from the store in windows of consecutive clip numbers.
  - A channel never repeats a clip.
  - Every clip is shorter than 30 minutes.
  - A channel never plays, at an item's start, the clip that an earlier channel reports for that instant.
- **Player.** A browser page finds the item that is playing at the current instant, and parses the timestamps the page works with.

The model covers the scheduling engine (`scheduler.go`), the parsing and export logic of `exporter.go`, and the two pure helpers of the player (`public/main.js`).

- **Values.**
  - Time instants and durations are integers in nanoseconds. The zero time of Go is the distinguished `Model.ZeroTime`.
  - Strings are `seq<char>`.
  - The Go structs become datatypes.
- **The sampler.** `videoSource` is a Dafny class, `Sampler.VideoSource`, whose `videos` field is updated in place.
  - The store's ordered range query is the function field `store`.
  - `math/rand` is the stream `random` together with the count `drawn` of values consumed. A ghost `recur` function states that the stream is fair.
- **Imperative code.** Loops in the source stay loops: `createBlocks`, `mergeBlock`, `Fetch`, `GetVideo`, `createChannel`, `createSchedule`, `merge`, `getPart`, `digVideoInfoPart`, the export loop and `getVideoAndOffset`. Each loop is proved against a specification function or predicate.

Modules:

| file | module | source |
|---|---|---|
| `common.dfy` | `Common` | int64 wrap-around, decimal digits, a stable insertion sort (`sort.Slice`) |
| `model.dfy` | `Model` | time constants, `videoInfo`, `videoInfoPart`, `videoStatistics` |
| `blocks.dfy` | `Blocks` | `createBlocks`, `getNextBlock`, `mergeBlock` |
| `sampler.dfy` | `Sampler` | `videoSource`: `Fetch`, `GetVideo` |
| `timeline.dfy` | `Timeline` | `getFinishTime`, `getVideoID`, `merge`, `getPart`, `truncateHour` |
| `builder.dfy` | `Builder` | `createChannel`, `createSchedule` |
| `isoduration.dfy` | `IsoDuration` | `parseInt64`, `parseDuration` |
| `exporter.dfy` | `Exporter` | `digVideoInfoPart`, `exportVideo` |
| `player.dfy` | `Player` | `getVideoAndOffset`, `parseDate` |

## Model

| member | source | states |
|---|---|---|
| Blocks.CreateBlocks | scheduler.go:71-106 | The blocks cover exactly the clip numbers of the input. Every block has a positive count, and the blocks come in ascending order of start. For distinct numbers, consecutive blocks are separated by a gap, so each block is a maximal run. Empty input gives no blocks. |
| Blocks.GetNextBlockSound | scheduler.go:108-183 | On sorted, separated blocks inside [0, max), the planned window never asks for more than `count` numbers. A non-empty window lies inside [0, max) and meets no block. |
| Blocks.GetNextBlockAtMost | scheduler.go:108-183 | For any blocks, the planned window's count is at most the requested count; it may be zero or negative. |
| Blocks.GetNextBlockMiss | scheduler.go:108-183 | A window that meets no block is returned at the asked start, with its count cut back to `max - start` when it would run past max. |
| Blocks.GetNextBlockHit | scheduler.go:119-180 | When the first block the window hits starts at 0, the window slides behind it. When that block reaches max, the window slides in front of it. Otherwise the coin picks the side. |
| Blocks.CoinNeeded | scheduler.go:130-140 | When no coin is needed, both coin values plan the same window. |
| Blocks.MergeBlock | scheduler.go:185-221 | The result is sorted and non-negative, and covers exactly the union of the old blocks and the new one. Touching blocks are fused, so positive inputs give separated blocks. An empty block list gives the new block alone, or nothing when the new block is empty. A zero-count block survives only if it was an input. |
| Sampler.NewRecords | scheduler.go:259-277 | The records a query appends are taken from its documents. Records with IDs already loaded are dropped, and so are repeats within the batch. Every document's ID ends up loaded. |
| Sampler.NewRecordsFirst | scheduler.go:259-277 | Each appended record is the first document with its ID, and the appended records keep the order of the documents. |
| Sampler.PlanSound | scheduler.go:245-246 | The window planned from the random start index and coin asks for at most 100 numbers. A non-empty window lies inside the corpus and meets no loaded block. |
| Sampler.VideoSource.constructor | scheduler.go:50-55 | A new source has the given store, random stream and corpus size, and an empty pool. |
| Sampler.VideoSource.Intn | scheduler.go:245 | Takes the next value of the random stream, reduced to [0, n). |
| Sampler.VideoSource.PlanWindow | scheduler.go:245-246 | Draws the start index, and the coin only when one is needed, and plans the window as `Plan` does. |
| Sampler.VideoSource.Absorb | scheduler.go:259-277 | Appends exactly the new records of the query's documents. IDs stay distinct and the loaded-ID set stays equal to the pool's IDs. |
| Sampler.VideoSource.LoadWindow | scheduler.go:251-277 | Queries a window of 1 to 100 numbers. The pool becomes the old pool followed by exactly the new records of the query's documents, so at most 100 records are added. The pool Fetch started from stays a prefix, and every record added since then comes from the query of a planned window. |
| Sampler.MergeWindow | scheduler.go:279 | For any pool, merging a window into positive blocks keeps them positive, and they cover exactly the loaded numbers and every window planned. For well-formed loaded records, merging a fresh window keeps the blocks separated and inside the corpus. They cover the loaded numbers and every window planned, and each window was fresh when planned. |
| Sampler.VideoSource.FetchWindow | scheduler.go:245-279 | One round of the loop. The window and the draws are those of `Plan` on the current blocks. The round fails exactly when that window is empty, and then it touches neither the pool nor the blocks. Otherwise the pool gains exactly the query's new records, the window is loaded and merged, it counts toward the budget, and fewer than 101 records are added. |
| Sampler.VideoSource.Fetch | scheduler.go:223-284 | Fails with no change at all when the pool plus `count` would exceed the corpus. Otherwise it only appends. On success at least `count` records are added, and fewer than `count + 100`. A failure means fewer than `count` were added. Past the count check, it fails only when the windows planned total 3000 numbers or more, or when the window `Plan` draws from the final blocks is empty. For any pool, those blocks are positive and cover exactly the numbers loaded at the start and those of the windows. Each window asks for 1 to 100 numbers and is planned only while the running total is below 3000. Every appended record comes from a planned window's query. With well-formed loaded records, every window lies inside the corpus and asks for no number already loaded or planned. |
| Sampler.VideoSource.GetVideo | scheduler.go:286-304 | Only appends to the pool. A returned clip is in the pool and its ID is not excluded, so the pool outnumbers the exclusion set. A failure leaves the pool below the exclusion set plus 100 records; the failed `Fetch(100)` may already have appended some records. When the pool already outnumbers the exclusion set, it neither fetches nor fails. |
| Sampler.FreeIndex | scheduler.go:294-303 | Pigeonhole: a pool with distinct IDs that outnumbers the exclusion set holds a non-excluded clip, so the rejection loop ends. |
| Timeline.FinishTimeIsTotal | scheduler.go:316-324 | An empty channel finishes at the zero time. A contiguous channel finishes at its start plus the sum of its durations. |
| Timeline.GetVideoIdFirst | scheduler.go:332-344 | The answer is the first item that starts at or after `t` and ends after `t`. |
| Timeline.GetVideoIdNone | scheduler.go:332-344 | There is no answer exactly when no item starts at or after `t` and ends after `t`. |
| Timeline.GetVideoIdNext | scheduler.go:334-339 | With positive durations, the answer is the first item starting at or after `t`, not the item playing at `t`. |
| Timeline.Merge | scheduler.go:350-373 | Keeps the channel count of `s`. Channel i holds `s`'s items followed by `other`'s, and an absent channel of `other` counts as empty. |
| Timeline.JoinContiguous | scheduler.go:350-373 | Merging a contiguous channel with one that starts at its finish time gives a contiguous channel with the later finish time. |
| Timeline.Overlapping | scheduler.go:385-396 | Keeps exactly the items that finish at or after `a` and start at or before `b`. |
| Timeline.PartOfSorted | scheduler.go:385-396 | On time-sorted items, the loop with its early break keeps exactly the overlapping items. |
| Timeline.GetPart | scheduler.go:376-402 | Keeps the channel count. Each channel is cut as the loop does, and for time-sorted items that is exactly the items overlapping [startTime, startTime + duration]. |
| Timeline.TruncateHour | scheduler.go:529-532 | The result is a JST midnight, at most one day before `t` and not after it. |
| Timeline.TruncateHourUnique | scheduler.go:529-532 | Only one JST midnight lies within the day ending at `t`. |
| Timeline.TruncateHourIdempotent | scheduler.go:529-532 | Truncating a midnight gives the same midnight. |
| Timeline.NextMidnight | scheduler.go:449 | The midnight after `t + 24h` is truncated is later than `t` and at most a day away. |
| Builder.Exclusions | scheduler.go:454-465 | The round's exclusion set is the channel's own clip IDs plus the IDs the other channels report at the current time. |
| Builder.AppendKeeps | scheduler.go:479-485 | Appending a non-excluded clip shorter than 30 minutes at the current time keeps all channel guarantees. |
| Builder.RoundKeeps | scheduler.go:453-487 | A round keeps the channel guarantees, and the channel never outgrows the pool. |
| Builder.DrawShort | scheduler.go:467-477 | Redraws until a clip shorter than 30 minutes that is not excluded comes up, excluding each long clip drawn. The pool only grows. It fails only when GetVideo does. The exclusion set had then grown only by loaded clips of 30 minutes or more, and the pool stayed below that set plus 100 records. |
| Builder.NextItem | scheduler.go:454-486 | One round builds the exclusion set, draws, and returns an item at the current time that keeps the channel guarantees. When there is no item, the draw against that round's exclusion set failed as DrawShort says. |
| Builder.CreateChannel | scheduler.go:442-493 | The first item starts at `startTime` and each next item where the previous one ends. Clips are shorter than 30 minutes and never repeat. Every item starts before the next JST midnight, and no item plays the clip another channel reports at its start. A channel is empty only after a failed draw. It then reports the items built so far: they were well built, they had not reached the midnight, and the draw for the next item failed against that round's exclusion set. Otherwise the channel reaches the midnight. |
| Builder.StartTime | scheduler.go:496-511 | A channel starts at the previous day's finish time of that channel when there is one and it is not before `t`. Otherwise it starts at `t`. |
| Builder.CarryOver | scheduler.go:505-510 | A channel that carries over continues the previous day's channel without a gap. |
| Builder.CreateSchedule | scheduler.go:495-527 | There are four channels, built in order. Channel i starts at `StartTime(i)`, sees channels 0..i-1 as the other channels, and meets every guarantee of CreateChannel. A channel is empty only when its build failed, with the pool as it stood then. |
| IsoDuration.Atoi | exporter.go:24 | A result exists only for digits after an optional `+` or `-` sign. Digits, or `+` and digits, give their value when it is below 2^63; `-` and digits give the negated value when it is at most 2^63. Everything else fails: empty text, a bare sign, any other character, or a value out of the int64 range. |
| IsoDuration.ParseInt64 | exporter.go:20-29 | The empty string gives 0, and so does text whose part before the last character does not parse. Every result is an int64. |
| IsoDuration.ParseInt64Designated | exporter.go:20-29 | A decimal number followed by one designator letter parses back to the number. |
| IsoDuration.ParseInt64Overflow | exporter.go:24-28 | A designated number of 2^63 or more does not fit an int64 and gives 0. |
| IsoDuration.Match | exporter.go:32-33 | The pattern finds a match exactly when the text contains a `P`. |
| IsoDuration.ParseDuration | exporter.go:31-46 | There is no result (the source panics) exactly when the text has no `P`. Every result is an int64. |
| IsoDuration.MatchFormat | exporter.go:32-33 | Matching a formatted duration captures each present component with its designator, and nothing for absent ones. |
| IsoDuration.ParseFormat | exporter.go:31-46 | A duration in the format with designators (ISO 8601) parses to Y·365d + Mo·30d + D·24h + H·1h + Mi·1min + S·1s, wrapped to int64. Absent components count as 0. |
| IsoDuration.MinutesAfterT | exporter.go:32 | An `M` after the `T` is minutes: `PTnM` lasts n minutes, so `PT5M` is five minutes. |
| IsoDuration.MonthsBeforeT | exporter.go:32 | An `M` before the `T` is months: `PnM` lasts n times 30 days, so `P1M` is thirty days. |
| Exporter.FirstListed | exporter.go:94-103 | Keeps one part per ID, so the IDs are distinct, and loses no ID. |
| Exporter.FirstListedKeepsFirst | exporter.go:94-103 | The part kept for an ID is the first one listed with that ID. |
| Exporter.Fresh | exporter.go:118-124 | Keeps exactly the parts that are not the latest known clip and not published before the latest known time. |
| Exporter.FreshDistinct | exporter.go:118-124 | Filtering keeps the IDs distinct. |
| Exporter.DigResultFresh | exporter.go:62-127 | The result has distinct IDs. It never holds the latest known clip or a part published before the latest known time, and every part was listed. |
| Exporter.DigVideoInfoPart | exporter.go:62-127 | The loop with its map, old-part counter and early stop returns `DigResult`. Reading stops after the first page on which more than 10 old parts have been seen. |
| Exporter.ReadPage | exporter.go:80-104 | After one page, the stored parts are the first-listed parts of everything read so far, and the old-part counter counts the old ones among them. |
| Exporter.Visit | exporter.go:94-103 | A part whose ID is stored is skipped. Otherwise it is stored under its ID, appended to the key order, and counted when old. |
| Exporter.Collect | exporter.go:118-124 | Walking the map's keys in insertion order keeps exactly the stored parts that are not old, in that order. |
| Exporter.ExportBatch | exporter.go:202-224 | Each part becomes a record with its ID, title and time, its looked-up duration and its number. The batch's parts are numbered consecutively. It stops at the first part without a duration and names it. |
| Exporter.Flush | exporter.go:187-228 | One call of the export closure writes the gathered parts after those already exported, numbered on. It names the first part without a duration, and the latest video becomes the last record written. |
| Exporter.ExportSorted | exporter.go:184-245 | The batches of 50 together number the sorted parts consecutively from the base. On error, the first part without a duration is named. The latest video is the last one written. |
| Exporter.ExportVideo | exporter.go:152-260 | Parts are sorted by publish time and numbered consecutively from the stored count. The new statistics name the last clip written and add the number written. They are written only when something was exported. |
| Exporter.ExportedInOrder | exporter.go:178-180 | The exported records are in publish-time order. |
| Exporter.ExportNumbers | exporter.go:208-222 | With distinct part IDs, the records use exactly the numbers from the stored count up to count + exported, and their IDs are distinct. |
| Player.SearchStart | public/main.js:153-163 | The search starts at 0 without a current ID. Otherwise it starts at the first item with that ID, or at the end when there is none. |
| Player.FirstPlaying | public/main.js:165-168 | Finds the first item from k on whose start ≤ date ≤ start + duration, or reports that none exists. |
| Player.GetVideoAndOffset | public/main.js:152-180 | Returns the first item playing at `date` from the search start, with offset date − start in [0, duration]. When nothing matches, it returns the first item with offset 0, or no item when the channel is empty. |
| Player.NeverBeforeCurrent | public/main.js:153-163 | With a current ID, no item before its first occurrence is returned. |
| Player.ParseDate | public/main.js:182-197 | There is no result (the source throws) exactly when the text has no `T`. |
| Player.ParseDateFormat | public/main.js:182-197 | An RFC 3339 section 5.6 timestamp with digit fields yields year, month, day, hours, minutes and seconds as decimal integers. A fraction and the zone after `+` are ignored. |
| Player.FieldValue | public/main.js:188 | `parseInt` of a digit string is its decimal value. |
| Player.SplitSingle | public/main.js:183 | Splitting gives one piece exactly when the separator is absent. |
| Player.SplitAt | public/main.js:183-187 | Splitting at a first separator gives the text before it followed by the split of the rest. |

## Left out

- Store and network I/O:
  - Reads and writes of the Firestore document store, and store errors while iterating a query. `newVideoSource`'s statistics read and its prefetch of 800 records are included here.
  - YouTube API calls: `getChannel`, `digVideoDuration`, and the page-token requests of `digVideoInfoPart`.
  - The parts, pages and durations are parameters instead.
- `getSchedule`, `exportSchedule`, `toScheduleKey`: these are JSON encoding and calendar formatting in library code that is not part of this model.
- Logging, and main.go, service.go and job.go (HTTP handlers, client construction, cron orchestration). These are not part of this model.
- The player's UI, timers and `fetchSchedule`, and the host-`Date` helpers (`getNowDate`, `toRawDate`, `subDate`). Player times and durations are integer seconds, so fractional seconds and float rounding are not modelled.
- Randomness and `time.Now`:
  - `math/rand` is an arbitrary stream of naturals with a fairness assumption (`Sampler.Fair`). The fairness assumption is what makes the rejection loop of `GetVideo` end. The redraw loop of `createChannel` ends without it, because every rejected clip joins the exclusion set.
  - The current time `t` is a parameter.
- `time.Parse` of publish times and its error path. Parts arrive with their times already parsed.
- int64 overflow of time arithmetic (`Time.Add`) is not modelled; instants are unbounded integers. Overflow is modelled only where the source computes in int64: `parseInt64`, `parseDuration`.
- Map iteration order:
  - `digVideoInfoPart` iterates a Go map, whose order is unspecified. The model returns the parts in first-listed order.
  - Only the set of parts returned is promised; `Exporter.DigResultFresh` states it.
- Exporter.ExportVideo: `sort.Slice` is not stable. The model sorts stably by publish time, so the order among equal times is one of the orders the source may produce.
- Exporter.ExportVideo: a store write error is not modelled. Only the missing-duration error ends the export early.
- Sampler.VideoSource.Fetch: a store error in the middle of a query is not modelled. Its failures are only the count check, the budget of 3000 and an empty planned window.
- Sampler.VideoSource.GetVideo: the failure contract states that the pool stayed below the exclusion set plus one window, and that no failure occurs when the pool already outnumbers the exclusion set. It does not name the `Fetch` call that failed.
- Builder.CreateChannel: the Go function's error result is always nil, so only the channel is returned. The ghost `failed` marks a swallowed draw failure. It comes with the items built before the failure and the exclusion set of the failed draw.
- Builder.CreateSchedule: no error result, since `createChannel` never returns one.
- Player.ParseInt: `parseInt`'s rounding of values beyond 2^53 to doubles is not modelled. Results are exact integers, and NaN is `None`.
- Player.ParseDate: an undefined array entry (a missing field) is `None`. A missing `T`, where the source throws a TypeError, is `None` for the whole result.
- IsoDuration.ParseInt64: Go's `value[:len(value)-1]` drops the last byte, but the model drops the last character. They differ only when the last character is not ASCII: on `5é` Go parses `5` and the first byte of `é`, fails and gives 0, where the model gives 5. `parseDuration` only passes groups that end in an ASCII designator, so this is unreachable from it.
- IsoDuration.ParseDuration: the panic on a text without `P` is the `None` result.
