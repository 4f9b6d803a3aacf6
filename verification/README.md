# ferrofeed, modelled in Dafny

ferrofeed is a terminal RSS/Atom reader. It keeps subscribed feeds and their
items in a SQLite store, fetches feeds over HTTP (`add`, `sync`), can install
a crontab entry that runs `sync` periodically (`schedule`), and offers a
keyboard-driven terminal interface over the store. This project models the
reader's core and proves properties of it:

- `types.dfy` (`Types`): `Option`, `Result`, Rust's `u16`/`u32`, and the
  saturating `u16` arithmetic the interface uses.
- `client.dfy` (`Client`): how a decoded feed is normalized into
  `ParsedFeed`/`ParsedFeedItem`: title, first link, the description
  fallback chain, trimmed author names, and published-or-updated. It also
  covers how the three fetch stages fail.
- `db.dfy` (`FeedStore`): the store as a class `Db`. Its `feed` and
  `feed_item` tables are sequences in rowid order, and the AUTOINCREMENT
  counters are fields. The model keeps the constraint semantics: a unique
  URL, `UNIQUE(feed_id, link)` where NULL links never collide, a foreign key
  that INSERT OR IGNORE does not suppress, and ON DELETE CASCADE. It also
  keeps `ORDER BY published DESC` with NULLs last, and `is_read` updates.
- `sync.dfy` (`Sync`): the `sync` command's nested loop over the feeds and
  their items, with the per-feed and total counts of new rows.
- `add_feed.dfy` (`AddFeedCommand`): the `add` command, which fetches to
  validate and then stores the feed.
- `schedule.dfy` (`Schedule`): the minutes-to-crontab mapping, with the
  cron expression given a firing semantics. It also covers the crontab
  update and the command's error paths, as written and with the
  corrected mapping (see Findings).
- `popup.dfy` (`Popup`): vertical centering of popup text.
- `ui.dfy` (`Ui`): the interface's state machine as a class `App`. It holds
  the screens, the list selections, the post scroll, the popups, and the
  key dispatch.

Fetching is an input. A `Download` is either a failure at a named stage
(request, body, parse) or a decoded feed. `sync` takes a `fetcher` function
from URL to `Download`. Wall-clock timestamps are parameters (`now`).
Running `crontab -l` is given as a `CrontabListing`, and
`std::env::current_exe` as an optional path.

## Model

| member | source | states |
|---|---|---|
| `Client.Trim` | src/client.rs:69 | The result is a contiguous piece of the input from which only White_Space characters were cut. It has no White_Space at either end. |
| `Client.TrimIdempotent` | src/client.rs:69 | Trimming twice is the same as trimming once. |
| `Client.FirstPresent` | src/client.rs:59-63 | The fallback chain is absent exactly when every candidate is absent. Otherwise it is the first present candidate, and every earlier one is absent. |
| `Client.NormalizeEntry` | src/client.rs:54-82 | The title is the entry title's text. The link is present exactly when the entry has links, and is then the first link's href. The description is the first present of summary, content body and content src. There is one author per entry author, each its trimmed name. Published is the published date, else the updated date. |
| `Client.NormalizedAuthorsAreTrimmed` | src/client.rs:66-70 | Every normalized author name has no surrounding whitespace. |
| `Client.FetchFeed` | src/client.rs:35-86 | The fetch fails exactly when a stage fails, and the error records the URL and the stage. On success the title is the feed title's text, and item i is entry i normalized, with as many items as entries. |
| `FeedStore.IndexOfUrl` | src/db.rs:110-113 | No index exactly when no feed row has the URL; otherwise the index of a row with that URL. |
| `FeedStore.WithoutUrl` | src/db.rs:110-113 | Exactly the feed rows whose URL differs, so afterwards no row has the URL. |
| `FeedStore.WithoutFeed` | src/db.rs:91 | Exactly the item rows of other feeds (the cascade). |
| `FeedStore.ItemsOf` | src/db.rs:158-163 | Exactly the item rows of the given feed. |
| `FeedStore.WithoutAbsentUrl` | src/db.rs:110-114 | Deleting a URL that no row has leaves the feed table unchanged. |
| `FeedStore.WithoutUrlKeepsFeedTable` | src/db.rs:66-70 | Deleting by URL keeps ids increasing and URLs unique. |
| `FeedStore.WithoutFeedKeepsItemTable` | src/db.rs:81-93 | The cascade keeps ids increasing and `(feed_id, link)` unique. |
| `FeedStore.CascadeKeepsNoOrphans` | src/db.rs:91 | After deleting a feed and cascading its items, every item still belongs to a stored feed. |
| `FeedStore.InsertByPublished` | src/db.rs:158-183 | Placing a row into the result list is a permutation step: the list gains exactly that row. |
| `FeedStore.InsertByPublishedSorted` | src/db.rs:163 | Placing a row keeps the list in `published DESC` order, with NULLs last. |
| `FeedStore.MarkedRead` | src/db.rs:186-191 | The same rows in the same order. A row is read afterwards exactly when it was read before or has the id. Nothing else in any row changes. |
| `FeedStore.MarkReadIdempotent` | src/db.rs:186-191 | Marking an item read twice is the same as marking it once. |
| `FeedStore.Db.constructor` | src/db.rs:52-97 | A new store has both tables empty and satisfies the table invariants. |
| `FeedStore.Db.AddFeed` | src/db.rs:100-107 | Succeeds exactly when the URL is new. Then one row is appended with that URL and title, under an id no feed row has had. Otherwise it is a UNIQUE violation and nothing changes. Items are untouched. |
| `FeedStore.Db.RemoveFeed` | src/db.rs:110-115 | Reports whether a row had the URL. Afterwards no row has it and the other feeds remain. The cascade removes exactly the removed feed's items. |
| `FeedStore.Db.ListFeeds` | src/db.rs:118-135 | Every feed row. The order is rowid order, a choice of the model because the query has no ORDER BY (see Left out). |
| `FeedStore.Db.AddFeedItem` | src/db.rs:139-155 | An unknown feed id is a foreign-key error. Otherwise the result is true exactly when the link is NULL or not yet stored for that feed, and then one unread row is appended with a fresh id. When false, nothing changes. |
| `FeedStore.Db.GetFeedItems` | src/db.rs:158-183 | Exactly the rows of the feed, each as often as stored, sorted by `published` descending with NULLs last. |
| `FeedStore.Db.MarkItemRead` | src/db.rs:186-192 | The item table becomes `MarkedRead` of the old one. The feed table and the counters are unchanged. |
| `Sync.CountOfAppend` | src/commands/sync.rs:26-52 | Appending rows of one feed raises that feed's count by their number, and no other feed's count. |
| `Sync.ContentStoredGrows` | src/db.rs:81-93 | Stored links stay stored when rows are only appended. |
| `Sync.Inserted` | src/commands/sync.rs:28-50 | The fetched items that INSERT OR IGNORE adds, in order: an item without a link, or one whose link is neither stored for the feed nor carried by an earlier fetched item. Never more items than were fetched. |
| `Sync.Rows` | src/db.rs:149-152 | One row per item, in order. |
| `Sync.RowsLinks` | src/db.rs:149-152 | The rows carry exactly the links of their items. |
| `Sync.InsertedLinks` | src/commands/sync.rs:28-50 | A link is stored for the feed or carried by an inserted item exactly when it is stored or carried by a fetched item. Skipping duplicates loses no link. |
| `Sync.InsertedAllWhenNew` | src/commands/sync.rs:28-50 | When no fetched link is stored yet and no link repeats, every fetched item is inserted. |
| `Sync.InsertedNoneWhenStored` | src/commands/sync.rs:28-50 | When every fetched item has a link that is already stored, nothing is inserted. |
| `Sync.InsertedForNewFeed` | src/ui.rs:922-931 | For a feed with no stored rows, the items inserted depend on the fetched list alone. |
| `Sync.RowsAppended` | src/commands/sync.rs:28-50 | Appending the rows of any items keeps the old rows and adds one unread row of the feed per item. |
| `Sync.InsertedContentStored` | src/commands/sync.rs:28-50 | Once the rows of the inserted items are appended, every linked fetched item is stored for the feed. |
| `Sync.InsertItem` | src/commands/sync.rs:30-49 | For a stored feed, one insert adds a row exactly when the item has no link or the link is not stored for the feed. The row has the next id, the item's fields and the author list, and is unread. For a feed that is no longer stored the insert fails, adds nothing and the item is skipped. Otherwise nothing changes. |
| `Sync.Added` | src/commands/sync.rs:33-48 | The items whose insert adds a row: those of `Inserted` for a stored feed, and none for a missing feed, whose every insert fails. |
| `Sync.InsertNext` | src/commands/sync.rs:28-50 | One loop step, stored feed or not: the rows appended so far grow from those of the added items among the first k fetched items to those among the first k+1. The count grows by one exactly when a row was added. |
| `Sync.InsertedRowsStep` | src/commands/sync.rs:33-49 | The rows of the items inserted among the first k+1 are those among the first k plus, exactly when item k is fresh, its row with the next id. |
| `Sync.InsertParsedItems` | src/commands/sync.rs:26-50 | The loop visits every fetched item: the rows appended are exactly those of `Added`, in order, with consecutive ids after the last one used. The count is their number. |
| `Sync.SyncFeedItems` | src/commands/sync.rs:26-52 | Inserts every fetched item in order. The rows added are unread rows of this feed, after the old rows, as many as the count, with the last item id advanced by the count. For a stored feed they are exactly the rows of the inserted items (`FreshRowsAppended`) and afterwards every linked item is stored. For a feed no longer stored every insert fails and nothing is added. If every item has a link that was already stored, nothing is added. |
| `Sync.SyncFeed` | src/commands/sync.rs:21-58 | One feed: a fetch failure exactly when the fetch fails, and then nothing changes. Otherwise the outcome counts the items `Inserted` adds, exactly their rows are appended (`FreshRowsAppended`), and the feed's linked content is stored. The last item id advances by the count. |
| `Sync.CountsStep` | src/commands/sync.rs:52 | Adding one feed's rows extends the per-feed counts by that feed's outcome, because feed ids differ. |
| `Sync.RunStep` | src/commands/sync.rs:21-59 | One more feed extends what the run has established (`RunSoFar`). |
| `Sync.Stage` | src/commands/sync.rs:24-57 | One feed's stage of a run: a failed fetch adds nothing. Otherwise the rows of the inserted items are appended with ids after the last one used. The rows added are as many as the ids used. |
| `Sync.RunState` | src/commands/sync.rs:21-59 | The rows and last item id after the stages of the first n feeds, in list order. The rows added since the start are as many as the ids used. |
| `Sync.StageOf` | src/commands/sync.rs:24-57 | What `SyncFeed` promises for a feed is exactly that feed's stage. |
| `Sync.RunCountsStep` | src/commands/sync.rs:26-53 | The next feed's outcome counts the items inserted at its own stage, and earlier outcomes keep theirs (`RunCounts`). |
| `Sync.RunRowsStep` | src/commands/sync.rs:21-59 | One more feed, processed as `SyncFeed` promises, extends the run by its stage (`RunRows`): the rows are the stages so far, each outcome counts its stage, and every added row is unread. |
| `Sync.FeedStep` | src/commands/sync.rs:21-59 | What `SyncFeed` promises for the next feed extends both `RunSoFar` and `RunRows`. |
| `Sync.SyncNext` | src/commands/sync.rs:21-59 | One loop iteration: the next feed is synced and both accounts of the run are extended. |
| `Sync.SyncFeeds` | src/commands/sync.rs:8-65 | The feed list is read once and not changed. There is one outcome per feed in list order: a failure exactly when that fetch fails, else that feed's new-row count. The total is the sum of the counts and the number of rows added, and old rows are untouched. The rows and last item id are exactly `RunState` after all feeds: each feed appends the rows of the items inserted at its stage. Each successful outcome counts that stage's items, every added row is unread, and the last item id advances by the total. Every fetched feed's linked content is stored. If all fetched items have links and were already stored, nothing is added. |
| `Sync.ResyncAddsNothing` | src/commands/sync.rs:8-65 | A second sync over unchanged content, where every item has a link, adds nothing and reports zero. |
| `AddFeedCommand.AddFeed` | src/commands/add_feed.rs:8-28 | A failed fetch is an error naming the URL and stage. A stored URL is a UNIQUE error. Both leave the store unchanged. Otherwise one feed row is added with the fetched title. The report shows that title, or the URL without one, and the number of fetched items. Items are never stored. |
| `Schedule.NatToString` | src/commands/schedule.rs:21-25 | Decimal digits with no leading zero unless the number is 0. |
| `Schedule.DecimalValueOfNatToString` | src/commands/schedule.rs:21-25 | Formatting a number in decimal and reading it back gives the number. |
| `Schedule.ErrorMessage` | src/commands/schedule.rs:16-35 | The display text of an interval error. Both texts end with the bound 1440. Only the "invalid" text starts with "Invalid". |
| `Schedule.MinutesToCrontabSchedule` | src/commands/schedule.rs:15-36 | As written. Success exactly for 1..59 and for multiples of 60 up to 1440. 0 and the other rejects say "invalid", and above 1440 says "maximum". 1..59 runs when the minute is a multiple of m. 60 runs hourly at minute 0. 120..1440 runs hourly at minute m/60. The human texts are as the code writes them. |
| `Schedule.MappingExamples` | src/commands/schedule.rs:17-34 | 30 maps to `*/30 * * * *` "every 30 minutes". 60 maps to `0 * * * *` "every hour". 120 maps to `2 * * * *` "every 2 hours". 0 and 90 are invalid, and 1441 is above the maximum. |
| `Schedule.TwoHourScheduleRunsHourly` | src/commands/schedule.rs:23-26 | The 120-minute schedule fires at minutes 2 and 62 of the day, one hour apart. |
| `Schedule.OnHourStep` | src/commands/schedule.rs:23-26 | Running on the hour every h hours is the same as running every 60·h minutes from midnight. |
| `Schedule.CorrectedMinutesToCrontabSchedule` | src/commands/schedule.rs:15-36 | Same acceptance, errors and human texts as the code. An accepted m of 60 or more fires exactly at the minutes of the day divisible by m. |
| `Schedule.UpdateCrontab` | src/commands/schedule.rs:65-78 | Nothing is written exactly when the existing text already contains the sync command. Otherwise the new text is `WithEntry`: the old text, a newline only after non-empty text that lacks one, then `<cron> <command>\n`. So the old text is a prefix, and the new text ends with the entry (`EndsWith`) and contains the command. |
| `Schedule.WithEntryKeeps` | src/commands/schedule.rs:71-76 | The text with a new entry keeps the old text as a prefix, contains the command and ends with the entry. |
| `Schedule.CurrentCrontab` | src/commands/schedule.rs:46-63 | A successful listing gives its stdout, and "no crontab" on stderr gives the empty text. Any other failed listing gives `CrontabFailed` with that stderr. A missing binary gives `CrontabNotInstalled` and any other spawn error `CrontabSpawnFailed`. |
| `Schedule.ScheduleWith` | src/commands/schedule.rs:40-77 | The command for a given mapping result. Checks run in source order: executable path, mapping, listing, then the already-scheduled check, and each failure is reported as such. Otherwise the result is `Install` of exactly `WithEntry(current, "<cron> <exe> sync\n")` with the mapping's human text. |
| `Schedule.Schedule` | src/commands/schedule.rs:40-99 | As written, with `MinutesToCrontabSchedule`. The same checks and errors as `ScheduleWith`. With a path, a schedulable interval, a listing and no existing entry, the result is exactly `Install(WithEntry(current, "<cron> <exe> sync\n"), human)` for the source mapping. An installed crontab extends the current one, contains `<exe> sync` and ends with the entry. |
| `Schedule.CorrectedSchedule` | src/commands/schedule.rs:40-99 | The command with `CorrectedMinutesToCrontabSchedule`: the same checks, errors and human text. The entry installed for an interval of an hour or more fires exactly at the minutes of the day divisible by the interval. |
| `Popup.AvailableHeight` | src/ui/popup.rs:31-36 | Height minus the two border rows, saturating at 0, when bordered; otherwise the height. |
| `Popup.PadTopLinesCenter` | src/ui/popup.rs:25-42 | Empty lines followed by the input lines unchanged. With the line count taken as `u16`, there is no padding when it fills the height. Otherwise the padding is half the free rows, rounded down. |
| `Popup.NoPaddingWhenFull` | src/ui/popup.rs:37 | Fewer than 65536 lines that fill the available height come back unchanged. |
| `Ui.KeyCommand` | src/ui.rs:472-509 | 'q' quits whatever the modifiers, and 'c'/'C' only with Control alone. Each of the following holds exactly: '?' shows the help, 'a' prompts for a feed, 'd' prompts to delete, j/Down moves down, k/Up moves up, 'g' goes to the first row, 'G' goes to the last row, Enter opens and Esc goes back. |
| `Ui.SelectBelow` | src/ui.rs:513-546 | An empty list keeps its selection. Otherwise none becomes row 0, and a row moves down by one unless it is at or past the last. A reachable selection stays reachable and in range. |
| `Ui.SelectAbove` | src/ui.rs:554-581 | None becomes row 0, even in an empty list. Row 0 stays, and any other row moves up by one. Reachability is kept. |
| `Ui.DownThenUp` | src/ui.rs:513-581 | Moving down from above the last row and then up returns to the same row. |
| `Ui.UpThenDown` | src/ui.rs:513-581 | Moving up from below the first row and then down returns to the same row. |
| `Ui.Clamped` | src/ui.rs:673-682 | In a non-empty list, no selection becomes row 0, a row past the end becomes the last row, and a row in range is kept, so the result is in range. In an empty list the selection is kept. |
| `Ui.FirstRow` | src/ui.rs:76-78 | None exactly for an empty list, else row 0. |
| `Ui.StoreFetchedFeed` | src/ui.rs:914-936 | `StoreAdded`. A successful fetch of a new URL appends the feed with the fetched title, under a feed id no earlier row had. It then appends exactly the rows of the items INSERT OR IGNORE adds, in order, with the next item ids (`FreshRowsAppended`), and every linked item is stored. Anything else leaves the store unchanged. |
| `Ui.StoreParsedFeed` | src/ui.rs:916-933 | After a successful fetch: `StoreAdded` for that fetched feed. |
| `Ui.SyncAddedFeed` | src/ui.rs:918-931 | Once the feed row is added, the lookup by URL finds it, and its items are inserted: `NewFeedItems` for the newest feed id. Feeds are unchanged. |
| `Ui.NewFeedInserted` | src/ui.rs:916-931 | A feed id no earlier row had has no stored items, so the items inserted for it are those of the fetched list whose link is not repeated from an earlier item. |
| `Ui.StoreAddedRows` | src/ui.rs:914-936 | After a successful add on a consistent store, the rows added are those of the fetched items whose link is not repeated from an earlier item, in order, with the next item ids. |
| `Ui.App.constructor` | src/ui.rs:72-89 | The feed screen with the stored feeds, the first selected if any, and no popup. |
| `Ui.App.MoveDown` | src/ui.rs:513-550 | `SelectBelow` on the current list, or a saturating scroll increment on a post. The `App` invariant is kept. |
| `Ui.App.MoveUp` | src/ui.rs:554-585 | `SelectAbove` on the current list, or a saturating scroll decrement on a post. |
| `Ui.App.MoveTop` | src/ui.rs:589-604 | Row 0 of a non-empty list (an empty list keeps its selection), or scroll 0 on a post. |
| `Ui.App.MoveBottom` | src/ui.rs:608-623 | The last row of a non-empty list, or scroll 65535 on a post. |
| `Ui.App.SelectItem` | src/ui.rs:627-660 | A selected feed opens its items, sorted newest first, with row 0 selected iff there are items. A selected item opens its post at scroll 0 with the same list. A post stays. |
| `Ui.App.GoBack` | src/ui.rs:664-692 | A post returns to its feed's item list. An item list returns to the store's current feeds with the selection clamped. The feed list stays. |
| `Ui.RemoveStoredFeed` | src/ui.rs:884-886 | The feed with the URL leaves the store together with its items; a URL not stored changes nothing. The list read back is the store's feed list. |
| `Ui.App.ShowFeeds` | src/ui.rs:886-890 | The feed screen shows exactly the given feeds, row 0 is selected when there is one, and nothing else in the application changes. |
| `Ui.App.TryDeleteFeed` | src/ui.rs:871-880 | Opens the delete prompt with the selected feed's URL, only on the feed screen with an in-range selection. |
| `Ui.App.DeleteFeed` | src/ui.rs:883-893 | The URL and that feed's items leave the store. The feed screen shows the rest, with row 0 selected, or none if the list is empty. |
| `Ui.App.AddFeedAsync` | src/ui.rs:896-948 | The store changes as `StoreFetchedFeed` says. Then the feed screen shows the store's feeds with row 0 selected, or none if the list is empty. |
| `Ui.App.Quit` | src/ui.rs:952-954 | Stops the application and changes nothing else. |
| `Ui.App.HandleHelpKey` | src/ui.rs:407-430 | '?'/Esc closes the help and resets its scroll. j/k/Down/Up scroll it with saturation, g/G go to 0/65535, and 'q' quits. The screen never changes. |
| `Ui.App.HandleAddFeedKey` | src/ui.rs:431-452 | `AddFeedKeyHandled`: characters are typed into the input, whatever the modifiers, so 'q' does not quit. Backspace removes the last character. Esc cancels. Enter closes and submits only a non-empty input. The app keeps running and the help scroll is kept. |
| `Ui.App.HandleDeleteFeedKey` | src/ui.rs:453-468 | `DeleteFeedKeyHandled`: y/Y closes the prompt and deletes the feed. n/N/Esc closes it and nothing else changes. Any other key leaves everything as it was. The app keeps running. |
| `Ui.App.ApplyCommand` | src/ui.rs:472-509 | Applies a command to the main screens. The add prompt opens only on the feed screen. |
| `Ui.App.OnKeyEvent` | src/ui.rs:403-510 | An open popup takes every key, and its handler's full effect holds (`HelpKeyHandled`, `AddFeedKeyHandled`, `DeleteFeedKeyHandled`). Only a submitted URL or a confirmed delete changes the screen or the store. Without a popup the key's command is applied (`CommandApplied`) and the store is unchanged. |

## Left out

- The network and the feed grammar are not modelled: `reqwest` and `feed_rs` are foreign code. What they yield for a URL is the `Download` input, and a successfully decoded feed is given structurally.
- Opening the SQLite file, WAL mode and PRAGMAs (src/db.rs:52-60) are I/O. The model starts from empty tables. A failing statement, as opposed to a violated constraint, is not modelled.
- Store calls cannot fail in the model except on a constraint. So the `if let Ok(..)` fallbacks in the interface, and an early exit of `sync` when listing fails, never happen.
- The author column is kept as an opaque list of names. `sync` binds the whole author list (src/commands/sync.rs:30-38), which the SQL binding cannot encode as a single text. The interface's insert names an `author` field that `ParsedFeedItem` does not have (src/ui.rs:928). Both places are modelled as storing the author list.
- `Schedule.UpdateCrontab`: the regular-expression search for the sync command (src/commands/schedule.rs:66-67) is modelled as a plain substring search. Regex metacharacters in the executable path are therefore not modelled.
- Schedule: spawning `crontab`, writing to its stdin and its exit status (src/commands/schedule.rs:79-95) are process I/O. The command's result is the crontab text it would install. A listing that is not UTF-8 (src/commands/schedule.rs:48) is not modelled.
- All rendering is left out: `render_*`, `render_popup` and `get_centered_popup_area`, as well as the help scrollbar state. The rich-text adapter (src/ui/rich_text.rs) is not part of this model.
- `Ui.App.HandleHelpKey`: the clamp `render_popup` applies to the help scroll on every frame (src/ui.rs:767-768, down to the help text's length minus the visible lines) is not modelled, because it depends on the terminal size. So after 'G' and then 'k' the model's scroll is 65534, while the program's is one below the clamp bound. The scroll offsets the list widgets write back through `&mut feed_list_state` and `&mut item_list_state` while rendering are not modelled either; only the selections are.
- `Client.FetchFeed`: the error value records the URL for every failing step. The program's message names the URL for the request and parse steps only (src/client.rs:37-48); a failed body read says just that. The message text is not modelled.
- `Sync.SyncFeed` requires its feed to be stored, because the model has no other writer: a feed deleted by another process between the listing and its sync is not modelled. The per-item failure that such a deletion causes is modelled one level down, in `Sync.SyncFeedItems`.
- The thread and Tokio runtime in `add_feed_async` are left out. A fetch that panics the thread is treated like a failed fetch.
- `Ui.App`: the model assumes the interface is the only writer to the store while it runs. A concurrent `sync` or `remove` from another process is not modelled. Under that assumption the feed screen always shows the store's current list.
- src/config.rs, src/main.rs, src/commands/list.rs, src/commands/remove_feed.rs and src/commands.rs are not part of this model. They are configuration, argument dispatch and printing wrappers over the store operations modelled here.
- Console output (progress lines, warnings) is not modelled. The values it reports are: per-feed outcomes, totals, and the name and item count shown by `add`.
- Items without a link are stored again on every sync, because `UNIQUE(feed_id, link)` never matches a NULL link. `FeedStore.Db.AddFeedItem` states this as a result of true whenever the link is absent. `Sync.ResyncAddsNothing` therefore requires every fetched item to have a link.
- `FeedStore.Db.ListFeeds`: the query of `list_feeds` (src/db.rs:121) has no ORDER BY, so SQLite promises no order. The model returns the rows in rowid order, that is insertion order. This is a choice of the model; the feed screen's row numbers follow it.
- Trimming follows Rust's `str::trim` and the Unicode White_Space property. No other Unicode processing is modelled.

## Findings

| source | as written | input that shows it | evidently intended | confidence | as-written member | corrected member |
|---|---|---|---|---|---|---|
| src/commands/schedule.rs:23-26 | A multiple of 60 from 120 to 1440 becomes `"{m/60} * * * *"`, with the hour count in the minute field. The job then runs once every hour, at minute m/60. | `schedule 120` installs `2 * * * *`, which runs at 00:02, 01:02, 02:02 and so on. That is every hour, while the command reports "every 2 hours". | The job runs every m/60 hours, on the hour (`0 */{m/60} * * *`). Then it fires exactly at the minutes of the day divisible by m. | not executed | `Schedule.MinutesToCrontabSchedule`, `Schedule.TwoHourScheduleRunsHourly`, `Schedule.Schedule` | `Schedule.CorrectedMinutesToCrontabSchedule`, `Schedule.CorrectedSchedule` |
