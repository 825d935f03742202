# Verified model of the M3llo desktop client's algorithmic core

This project models, in Dafny, the parts of the client and of its build scripts whose correctness
is not visible from one function body, and proves what they promise. Code that updates things in
place is modelled by classes, arrays and loops, each method tied to a function of the old state;
the properties are then proved about those functions and about runs of them.

| area | modules | what is proved |
|---|---|---|
| GIF animator | `GifPlayback`, `GifAnimation`, `GifProtocol`, `GifTick`, `GifEviction` | playback conserves time and loop limits are reached in bounded time; the cache is a FIFO queue; in every interleaving of workers and the UI timer no result is lost, exactly because of the two orders the source uses; a dropped GIF is out of reach until the next clear; a tick is one run of the protocol's steps |
| dates | `Calendar`, `CivilDays`, `FeedAge`, `BuildStamp`, `Text` | civil-from-days is the proleptic Gregorian calendar for every day; weekdays, labels and time stamps follow it |
| accessibility scanner | `Utf8`, `Utf8Encoding`, `A11yMask`, `A11yBlocks` | UTF-8 itself, the lexer mask token by token, the brace tree, the text at a block's own depth, and exactly when slicing it panics |
| list synchronisers | `RowModel`, `ListSync`, `Crews`, `ChatRowData`, `ChatRowFields`, `ChatRows` | in-place diffs that end at the target and keep surviving rows in their places; exactly what the row comparison misses |
| mentions | `Mentions` | tagging and escaping lose nothing, and the markup tells spans and colours apart |
| catalogue files | `Bytes`, `Leb128`, `SortedKeys`, `AppidIndex`, `AppidReader`, `StringBlobs`, `HeadFormat`, `Catalogue`, `HeadWriter`, `HeadReader` | the build script's two binary files as the client's own readers see them: exactly when they can be written, what comes back, and exactly when something is lost |
| notices | `Sorting`, `NoticesFormat`, `Notices` | the grouping writer and the splitting parser undo each other |
| video presenter | `ContainFit`, `Presenter`, `CardVisibility` | contain-fit geometry; deferred geometry refines direct geometry over any run; exactly when a paused video stays hidden, and what shows the video on the card |
| chat window | `ChatWindow`, `ChatReading`, `ChatRequests` | unread state and requests over any run; rows stay put while the user reads up, and exactly when the counts told add up to the rows that came above |
| invites | `DeepLinks`, `LinkShapes` | parsing is case-insensitive and canonical, the clipboard reader agrees with the invite field, and the exact shapes of all that is accepted |
| stream gate | `Percentile` | interpolated percentiles are monotone, bounded and order-free |

`Collections` and `Wrappers` hold shared definitions. `dafny verify dfyconfig.toml` checks everything.

## Conventions

- Numbers are unbounded except where a file format fixes 32 bits. Reals stand for `f32` and Python
  floats: rounding is not modelled.
- `None` as a result stands for the error the source raises or returns there.
- A file with a class and functions over a snapshot (`View()`) states each method as
  `View() == F(old(View()), ...)`; the lemmas are about `F` and runs of it.
- In `GifProtocol`, one action is one atomic statement of the source. `deliver` is two actions,
  and the idle check three reads. A frame handler is registered, every frame list is non-empty and
  has a delay for each frame, and a frame handler may itself ask for another GIF.
- In `RowModel`, a slot is the identity of a row on screen: an update keeps it, an insertion makes
  a new one.
- In `Catalogue`, texts are UTF-8 bytes, already lower-cased where the script lower-cases them, a
  game carries its derived short name, and ids are numbers. `str.lower` is a parameter.
- Many rows state a function by its results alone, with the source's texts, bytes and numbers written out, so
  that no statement leans on the definition it is about.
- `{:induction false}` stands on lemmas whose recursion is the proof, and on a few others that the
  verifier's own attempt at induction makes too costly.
- The readers of both catalogue files are the client's (`mello-core/src/catalogue.rs`).
- In `ChatRowData`, what `mello_core` and the window toolkit compute from a text (mention spans, links,
  emoji test, words, size label, markdown parser) is the parameter `Core`; pictures are
  numbers, already scaled down, and the key that a hash map gives first is a parameter.
- In `ChatWindow`, a message is its id, whether it is the user's own, and a number for the rest.
- In `Presenter`, Windows calls succeed; a window size is a pair of reals, and sizes are packed as
  the source packs them.

## Where code and comments differ

- `client/src/gif_animator.rs:77-78` says a dropped GIF is fetched again on hover. Eviction
  (lines 184-192) leaves the URL in `requested`, so it is not: `GifProtocol.FetchedAgainOnlyAfterClear`
  gives the exact condition, and `GifEviction.DroppedIsNotFetchedAgain` a run for every cache size.
- `client/src/gif_animator.rs:269` says a row gets the frame it should show right now. After a pause
  the screen still shows the last frame and `current_frame` gives the first
  (`GifPlayback.CurrentIsOnScreen`; `GifPlayback.PausedShowsLast` for every GIF with a loop limit).
- `client/src/converters.rs:376-378` says the fields a rebuild can change are compared, `gif_image`
  among them on purpose. Lines 379-399 do not compare it, nor the sender, the styled text, the GIF,
  the reply, or any picture: a new avatar or a second edit of the mentions alone leaves the old row
  (`ChatRowData.SameMeansEqual`, `OwnPictureMissed`, `MentionsMissed`).
- `client/src/a11y_lint.rs:146-158`: an unclosed block loses its last character, and panics when that
  has more than one byte (`A11yBlocks.OwnTextIsComplete`, `A11yBlocks.AccentAfterBrace`).
- `scripts/build_catalogue.py:328` cuts a string at 255 bytes, inside a character or not;
  `mello-core/src/catalogue.rs:276-285` then shows nothing (`StringBlobs.ReadBackIsCut`).
- `mello-core/src/catalogue.rs:69-70` says a varint that does not fit 32 bits is refused rather than
  wrapped. A fifth byte above 15 wraps (`AppidReader.ReadsWritten`, `AppidReader.WrapsSilently`).
- `scripts/build_catalogue.py:418-420` lowers every letter of a name or path, `mello-core/src/catalogue.rs:175-177`
  only those of ASCII: a process whose name has an accented capital is not found (`HeadReader.CapitalIsMissed`).
- `scripts/build_catalogue.py:366-378` documents four length bytes a record; line 408 writes five
  and three bytes of padding. The model follows line 408.
- `sync_chat_rows` (`client/src/converters.rs:301-331`) has no branch for a changed order. It ends
  with exactly the target's rows if and only if the common ids kept their order
  (`ChatRows.SyncRows`); two rows that change places leave a third (`ChatRows.SwappedRowIsRepeated`).
- `update_geometry` (`client/src/dcomp_presenter.rs:669-673`) shows the video without looking at
  `content_visible` (`Presenter.PauseHolds`, `Presenter.PausedIsShown`), and `set_content_visible` (lines
  413-428) without looking at the viewport (`CardVisibility.ShownOnCard`, `SwitchShowsOutOfView`).
- The count of prepended rows (`client/src/chat_ui.rs:112-114`) is lost when a second prepend comes
  before `apply_to_window` (`ChatReading.CountIsOverwritten`), which the client's own refreshes rule out,
  and no row is counted when a loaded message comes again (`ChatReading.ToldAddsUp`, `RowAppearsUntold`).

## Model

| member | source | states |
|---|---|---|
| `GifPlayback.AdvanceConservesTime` | client/src/gif_animator.rs:210-234 | one tick adds exactly `tick` to the time an animating GIF has been played and nothing to any other |
| `GifPlayback.PlaybackConservesTime` | client/src/gif_animator.rs:210-234 | over any number of ticks, elapsed time plus the delays of the frames left behind is the tick times the ticks |
| `GifPlayback.FrameTicksIsCeiling` | client/src/gif_animator.rs:215-219 | the ticks granted to a frame are max(1, ceil(delay / tick)) |
| `GifPlayback.PausesWithin` | client/src/gif_animator.rs:210-234 | a measure of ticks left falls with every tick, and when it is used up the GIF is paused |
| `GifPlayback.LoopLimitedGifPauses` | client/src/gif_animator.rs:210-234 | with a loop limit a GIF is paused after limit times the sum of its frames' ticks, on its first frame, with exactly the limit of loops counted |
| `GifPlayback.LoopLimitedGifPlaysInFull` | client/src/gif_animator.rs:222-231 | it is never paused before the delays of that many whole loops have passed |
| `GifPlayback.ResumeReplaysInFull` | client/src/gif_animator.rs:258-267 | a resumed GIF is as good as new: it plays its loops once more and pauses in the same bounded time |
| `GifPlayback.CurrentIsOnScreen` | client/src/gif_animator.rs:210-275 | whatever ticks and resumes a GIF has seen, the frame a rebuilt row is given is the one on screen if and only if the GIF has not paused without leaving its first frame since; then the screen shows the last frame |
| `GifPlayback.PausedShowsLast` | client/src/gif_animator.rs:222-231 | that happens to every GIF of several frames with a loop limit: once it has paused, its last frame is on screen and its first is what a row is given |
| `GifAnimation.MakeRoomIsDequeue` | client/src/gif_animator.rs:184-192 | eviction by smallest sequence number removes the oldest insertion |
| `GifAnimation.OldestIsOne` | client/src/gif_animator.rs:186-189 | which entry is evicted is no choice: sequence numbers are distinct |
| `GifAnimation.StoreIsEnqueue` | client/src/gif_animator.rs:160-207 | handling a result is an enqueue on the FIFO queue that the map and its sequence numbers represent |
| `GifAnimation.EveryResultCounts` | client/src/gif_animator.rs:162-207 | of all the results of a tick, every failure is remembered, every GIF gets the next number, and nothing else changes but the cache |
| `GifAnimation.EveryResultJoins` | client/src/gif_animator.rs:162-207 | the cache is the queue after every fetched GIF of the tick has joined it, in order |
| `GifAnimation.CachedIsLastFetched` | client/src/gif_animator.rs:193-206 | what is cached after a tick's results is, from its start, the last GIF fetched for the URL, or what was cached before if there is none |
| `GifAnimation.EnqueueBound` | client/src/gif_animator.rs:184-207 | the queue never grows past the limit (or one) |
| `GifAnimation.ShownIsCurrent` | client/src/gif_animator.rs:210-234 | a frame handed to the UI in a tick is the entry's current frame after it |
| `GifAnimation.ShownIffMoved` | client/src/gif_animator.rs:210-234 | a tick hands the UI frames of exactly the entries that moved on and did not pause |
| `GifAnimation.HandleKeepsCache` | client/src/gif_animator.rs:160-207 | handling a result keeps current frames in range and sequence numbers distinct and below the next |
| `GifAnimation.ResumeStartsOver` | client/src/gif_animator.rs:258-267 | a resumed GIF is a new one, the timer runs if there is a handler, and nothing else changes |
| `GifAnimation.FirstFrames` | client/src/gif_animator.rs:162-207 | every drained result yields one call of the handler, in order: the first frame, or none for a failure |
| `GifAnimation.TimerEventuallyStops` | client/src/gif_animator.rs:210-252 | with a loop limit and nothing fetched, the timer stops within the longest wait of any entry |
| `GifAnimation.GifAnimator.BeginFetch` | client/src/gif_animator.rs:120-131 | a URL is issued once, the counter goes up and the timer runs; a URL asked for before changes nothing |
| `GifAnimation.GifAnimator.EnsureTimerRunning` | client/src/gif_animator.rs:133-140 | the timer runs only once a handler is registered |
| `GifAnimation.GifAnimator.PushResult` | client/src/gif_animator.rs:45-50 | the first half of `deliver` |
| `GifAnimation.GifAnimator.DecrementInFlight` | client/src/gif_animator.rs:51 | the second half of `deliver` |
| `GifAnimation.GifAnimator.DrainInbox` | client/src/gif_animator.rs:158-161 | the inbox is emptied in one step, in order |
| `GifAnimation.GifAnimator.OldestEntry` | client/src/gif_animator.rs:186-189 | the entry found has the least sequence number |
| `GifAnimation.GifAnimator.HandleResult` | client/src/gif_animator.rs:162-207 | a failure is remembered, a success evicts if full and stores a fresh entry |
| `GifAnimation.GifAnimator.AnimateEntries` | client/src/gif_animator.rs:210-234 | the loop over all entries advances each exactly once, whatever the order |
| `GifAnimation.GifAnimator.IsAnimating` | client/src/gif_animator.rs:238-241 | true exactly when some entry is unpaused with several frames |
| `GifAnimation.GifAnimator.OnTick` | client/src/gif_animator.rs:157-252 | one uninterrupted timer tick: drain, handle, animate, and stop exactly when idle; the frames shown are those of the results handled and of the entries advanced after them |
| `GifAnimation.GifAnimator.Resume` | client/src/gif_animator.rs:258-267 | a paused GIF starts again with its counters reset, and the timer runs |
| `GifAnimation.GifAnimator.StopAndClear` | client/src/gif_animator.rs:290-297 | everything is forgotten but the counter of fetches in flight |
| `GifProtocol.RunInv` | client/src/gif_animator.rs:43-52 | all invariants (counter, timer, request book, ledger and origin of tickets, cache) hold after every run |
| `GifProtocol.TimerStep` | client/src/gif_animator.rs:236-252 | every atomic step keeps: counter equals tickets in `deliver`; a stopped timer owes nothing; each read of the idle check stays true |
| `GifProtocol.LedgerStep` | client/src/gif_animator.rs:43-52 | every step keeps each ticket in exactly one place: with a worker, in the inbox, drained, seen or discarded |
| `GifProtocol.OriginStep` | client/src/gif_animator.rs:43-52 | every step keeps each result, in the inbox or drained, at the place of the ticket for its URL |
| `GifProtocol.BookStep` | client/src/gif_animator.rs:120-131 | every step keeps: requested URLs are those issued since the last clear, each once |
| `GifProtocol.CacheStep` | client/src/gif_animator.rs:184-207 | every step keeps the cache a bounded FIFO queue |
| `GifProtocol.AsWrittenNeverLoses` | client/src/gif_animator.rs:236-252 | in every interleaving a stopped timer means every ticket since the last clear was seen by the UI, and nothing animates |
| `GifProtocol.DecrementFirstLoses` | client/src/gif_animator.rs:45-51 | with the decrement before the push there is a losing run |
| `GifProtocol.InboxFirstLoses` | client/src/gif_animator.rs:242-244 | with the inbox read before the counter there is a losing run |
| `GifProtocol.BothOrdersMatter` | client/src/gif_animator.rs:43-52 | nothing is ever lost if and only if both orders are those of the source |
| `GifTick.TickIsRun` | client/src/gif_animator.rs:157-252 | a tick is the protocol's run of drain, one handling step for each result, animate, and the reads as far as their answers let it go on |
| `GifProtocol.HandledAtMostOnce` | client/src/gif_animator.rs:158-162 | no result reaches the UI twice |
| `GifProtocol.OneTicketPerUrl` | client/src/gif_animator.rs:101-103 | a URL gets one ticket between two clears |
| `GifProtocol.FetchedAgainOnlyAfterClear` | client/src/gif_animator.rs:120-124 | over every run, a fetch is made if and only if the URL was not issued since the last clear: eviction does not matter |
| `GifEviction.DroppedIsNotFetchedAgain` | client/src/gif_animator.rs:77-78 | for every cache size there is a run after which a GIF is neither cached nor failed nor on its way, and hovering over it does nothing |
| `GifProtocol.CounterAndCacheBounds` | client/src/gif_animator.rs:120-131 | over every run the counter equals the tickets outstanding and the cache never exceeds its limit |
| `Calendar.NextDayIsNextNumber` | client/src/feed_age.rs:55-66 | the reference calendar: the day after a day has the next number (Appendix C of RFC 3339 for leap years) |
| `Calendar.OrderPreserved` | client/src/feed_age.rs:55-66 | dates in calendar order have day numbers in the same order, and only equal dates equal numbers |
| `Calendar.DaysToYearClosed` | client/src/feed_age.rs:55-66 | counting years one at a time agrees with the closed form, before the epoch too |
| `CivilDays.YearFromQuotients` | client/src/feed_age.rs:45-47 | the corrected division gives the year of the era and the day of the year, from century, four-year block, year and day |
| `CivilDays.YearOfEraIsRight` | client/src/feed_age.rs:45-47 | the year is in 0..400 and day 365 exists only before a leap February's end |
| `CivilDays.MonthIsRight` | client/src/feed_age.rs:48-51 | the month arithmetic is the calendar's month table from March |
| `CivilDays.CivilFromDaysIsRight` | client/src/feed_age.rs:55-66 | for every day number, also negative, the conversion gives the valid date with that number |
| `CivilDays.DayNumberRoundTrip` | client/src/feed_age.rs:55-66 | every valid date is the conversion of its own day number |
| `CivilDays.CivilStepsByOneDay` | client/src/feed_age.rs:55-66 | the next day number is the next calendar day, and day 0 is 1970-01-01 |
| `CivilDays.CivilKeepsOrder` | client/src/feed_age.rs:55-66 | the conversion is strictly order-preserving |
| `FeedAge.CivilIsTheDate` | client/src/feed_age.rs:55-66 | `civil` gives the calendar date of any instant |
| `FeedAge.LabelIsTheDate` | client/src/feed_age.rs:42-52 | the label is the calendar's day and the English name of its month, for any instant, though it never computes the era |
| `FeedAge.CivilBounds` | client/src/feed_age.rs:55-66 | the month indexes the table of names for every instant |
| `FeedAge.RangeNamesBothEnds` | client/src/feed_age.rs:71-84 | a range reads "28 September to 4 October", or "12 to 18 October" in one month: first the day of its start, then that of its last millisecond; it is empty exactly without a time |
| `FeedAge.WeekRangeNamesBothEnds` | client/src/feed_age.rs:71-84 | for a recap week the month is written once exactly when both days are in the same month of the same year |
| `FeedAge.WeekdayIsAppendixB` | client/src/feed_age.rs:13-23 | the weekday is the English name of the one that the algorithm in Appendix B of RFC 3339 gives for the date |
| `FeedAge.WeekdayStepsWithTheCalendar` | client/src/feed_age.rs:13-23 | a day later is the next calendar day and the next weekday |
| `BuildStamp.StampRoundTrip` | build-stamp/build.rs:77-97 | below year 10000 the stamp is a section 5.6 date-time of RFC 3339 that reads back as the same second |
| `BuildStamp.StampOrder` | build-stamp/build.rs:77-97 | stamps compare as strings exactly as their times compare |
| `BuildStamp.CopiesAgree` | build-stamp/build.rs:77-97 | the stamp's date, `civil` and `date_label` agree on every day |
| `Text.PaddedIsDigits` | build-stamp/build.rs:91-96 | zero-padded decimals of fitting numbers are fixed-width digits |
| `Text.DecimalReads` | client/src/feed_age.rs:52 | decimals are digits that read as the number, without leading zeros |
| `Text.TrimIs` | client/build_notices.rs:142 | trimming takes white space off both ends and nothing else |
| `Text.LessIs` | client/build_notices.rs:124 | strings compare at the first place where they differ |
| `A11yMask.MaskInPlace` | client/src/a11y_lint.rs:58-95 | the in-place lexer loop computes the byte-by-byte specification, for every input |
| `A11yMask.CodeStays` | client/src/a11y_lint.rs:58-95 | the text begins in code, and code that starts no string and no comment stays |
| `A11yMask.StringText` | client/src/a11y_lint.rs:63-75 | a quote in code starts a string up to the first quote without an odd number of backslashes before it; the quotes stay and what is between them is blanked |
| `A11yMask.LineComment` | client/src/a11y_lint.rs:76-81 | two slashes in code start a comment to the end of the line, which is kept if and only if "a11y: none" stands anywhere in it, and blanked otherwise |
| `A11yMask.BlockComment` | client/src/a11y_lint.rs:82-89 | a slash and a star in code start a comment up to and with the first star and slash after them, and all of it is blanked |
| `A11yMask.NewlinesKept` | client/src/a11y_lint.rs:58-95 | newlines stay exactly where they were |
| `A11yMask.BracesCountOutside` | client/src/a11y_lint.rs:55-57 | a brace survives if and only if it is in code or in a marked line comment |
| `A11yMask.MarkedLineKept` | client/src/a11y_lint.rs:76-81 | a line comment with the exemption marker is kept verbatim |
| `A11yMask.MaskedStates` | client/src/a11y_lint.rs:58-95 | lexing the masked text passes through the collapsed states of the original |
| `A11yMask.MaskIsIdempotent` | client/src/a11y_lint.rs:58-95 | masking a masked text changes nothing |
| `A11yMask.MaskKeepsUtf8` | client/src/a11y_lint.rs:94 | masking well-formed UTF-8 gives well-formed UTF-8, so the conversion at the end cannot fail |
| `Utf8.StartsAreBoundaries` | client/src/a11y_lint.rs:153-156 | in well-formed UTF-8 (section 4 of RFC 3629) a character starts exactly at the bytes that are no continuation |
| `Utf8.PrefixFrom` | mello-core/src/catalogue.rs:276-285 | a prefix of well-formed UTF-8 is well formed exactly when it ends at a character |
| `Utf8Encoding.WellFormedIs` | client/src/a11y_lint.rs:94 | a byte sequence is well formed exactly when it is the encoding of a text by section 3 of RFC 3629 |
| `Utf8Encoding.Utf8LenIsLength` | client/src/deep_link.rs:142-164 | the clipboard limit counts the bytes of that encoding |
| `A11yBlocks.Blocks` | client/src/a11y_lint.rs:107-143 | the stack scan gives every brace one block, ending one past its matching brace (or at the end of the text), with the innermost enclosing block as parent |
| `A11yBlocks.CloseIsUnique` | client/src/a11y_lint.rs:133-137 | the matching position is determined by the depth function |
| `A11yBlocks.DepthIsSurplus` | client/src/a11y_lint.rs:111-143 | the depth before a byte is the largest surplus of opening over closing braces that any stretch before it has |
| `A11yBlocks.NestedOrDisjoint` | client/src/a11y_lint.rs:107-143 | two blocks are nested or disjoint |
| `A11yBlocks.ChildAbove` | client/src/a11y_lint.rs:127-132 | a block inside another is inside exactly one of its children's chain |
| `A11yBlocks.OwnIsInnermost` | client/src/a11y_lint.rs:145-158 | a byte outside all children of a block has that block as its innermost |
| `A11yBlocks.OwnText` | client/src/a11y_lint.rs:145-158 | the loop collects exactly the bytes whose innermost block this is, up to the last but one position of the block; every slice is at character boundaries but the last one of an unclosed block that ends in a longer character of its own, where the source panics |
| `A11yBlocks.CollectedAt` | client/src/a11y_lint.rs:146-158 | each byte of the own text comes after those selected before it |
| `A11yBlocks.CollectedCount` | client/src/a11y_lint.rs:146-158 | and the own text has no others |
| `A11yBlocks.OwnTextIsComplete` | client/src/a11y_lint.rs:156 | only an unclosed block loses anything: where it does not panic, its last character, exactly when that is its own |
| `A11yBlocks.AccentAfterBrace` | client/src/a11y_lint.rs:156 | a brace and an accented letter is such a text |
| `RowModel.VecModel.Remove` | client/src/converters.rs:415-422 | removing a row keeps the identity of all others |
| `RowModel.VecModel.Insert` | client/src/converters.rs:439 | an inserted row has a new identity; the others keep theirs |
| `RowModel.VecModel.SetRowData` | client/src/converters.rs:428 | an update keeps the row's identity |
| `RowModel.VecModel.SetVec` | client/src/converters.rs:436 | replacing the list gives every row a new identity |
| `RowModel.RemoveGone` | client/src/converters.rs:414-422 | the backward loop removes exactly the rows whose id the target lacks |
| `RowModel.MatchedInOrder` | client/src/converters.rs:424-441 | if all kept rows are met from left to right, the common ids kept their order |
| `RowModel.EditCounts` | client/src/converters.rs:400-406 | rows removed are as many as old ids not in the target, and places left to fill as many as new ids |
| `ListSync.SyncEnd` | client/src/converters.rs:424-441 | a second loop that never met a later row ends in place: survivors in their slots, every row stood for, and no edit that could have been spared |
| `ListSync.LateMeansCrossed` | client/src/converters.rs:431-438 | a target row found further down means the common ids changed order |
| `Crews.PlaceCrew` | client/src/converters.rs:424-441 | one round: keep, update, replace everything or insert |
| `Crews.SyncRows` | client/src/converters.rs:407-442 | for distinct ids: ends exactly at the target; replaces the list if and only if the common ids changed order; otherwise survivors keep their slots and removals, insertions and updates are counted exactly |
| `Crews.CrewList.SyncCrews` | client/src/converters.rs:407-442 | the same for the window's list, with the branch for a model of another type; whatever the ids, the list starts with the target |
| `Crews.CrewList.ApplyUnread` | client/src/converters.rs:445-462 | refreshing unread counts shows in each row the tracker's count up to 99, and 99 beyond, and its mention flag; nothing else changes: no row moves, and one update for each crew that changed; a model of another type is read and replaced |
| `ChatRowData.SameMeansEqual` | client/src/converters.rs:376-399 | two builds of a message that compare as the same are equal if and only if sender, system flag, GIF, reply, avatar, uploads, parsed markup and emoji pictures agree in what they were built from |
| `ChatRowData.KeptRowIsCurrent` | client/src/converters.rs:322-331 | so a row that the synchroniser leaves alone is current if and only if they do, whatever frames were put into it |
| `ChatRowData.MarkupsAgree` | client/src/converters.rs:98-119 | for one text on display, two markups are equal if and only if the same mention spans are tagged in the same colour |
| `ChatRowData.CurrentIfElsewhere` | client/src/converters.rs:229-238 | so with the same spans and colour, a row left alone is current if and only if all else agrees, without building either row |
| `ChatRowData.OwnPictureMissed` | client/src/converters.rs:146-153 | after a new picture of the user, each of their rows compares as the same and keeps the old picture |
| `ChatRowData.MentionsMissed` | client/src/converters.rs:229-238 | an edit that changes only whom the text mentions compares as the same and keeps the old markup |
| `ChatRowData.PatchIsRebuild` | client/src/avatar.rs:223-252 | patching the rows of a sender after a download gives what a rebuild gives if and only if the full cache did not drop the picture of the row's own sender, whom the patch leaves alone |
| `ChatRowData.CacheHolds` | client/src/avatar.rs:223-234 | the picture is cached, the cache stays within 64, and only a new key for a full cache costs another its entry |
| `ChatRowFields.CopiedFields` | client/src/converters.rs:251-295 | the fields of a row that are copied from the message or left for later, one by one |
| `ChatRowFields.OptionalFields` | client/src/converters.rs:251-295 | GIF and reply fields, with 32-bit sizes read as signed |
| `ChatRowFields.MentionsField` | client/src/converters.rs:251-295 | whether one of the mentions is the user's |
| `ChatRowFields.AvatarFields` | client/src/converters.rs:146-153 | the user's own picture for their rows, else the sender's cached one, else none |
| `ChatRowFields.TextFields` | client/src/converters.rs:194-227 | the text on display is prepared for plain messages only, and cut with an ellipsis after 8000 characters |
| `ChatRowFields.MarkupField` | client/src/converters.rs:229-249 | its markup is parsed with the mentions tagged, and is the plain text where it does not parse |
| `ChatRowFields.ImageFields` | client/src/converters.rs:176-193 | each upload has its image, with its size label |
| `ChatRowFields.EmojiPictureIs` | client/src/converters.rs:353-360 | a token has a picture exactly when it is a crew emoji's name of two to twenty-four characters between colons |
| `ChatRowFields.CrewEmojiField` | client/src/converters.rs:362-374 | the pictures of a body of one to three crew emoji and nothing else, and none otherwise |
| `ChatRowFields.ReactionAt` | client/src/converters.rs:156-175 | every emoji that somebody used has its reaction, in order, with its count, the user's part in it, and its picture |
| `ChatRowFields.OnlyReactions` | client/src/converters.rs:156-175 | and there is no other reaction |
| `ChatRowFields.LooksAtNothingElse` | client/src/converters.rs:376-399 | rows that agree in the nineteen compared fields are the same, whatever the others are |
| `ChatRows.MetEnd` | client/src/converters.rs:322-330 | rows left below repeat target ids, and none are left only if the order was kept |
| `ChatRows.PlaceRow` | client/src/converters.rs:322-330 | one round: keep, update or insert |
| `ChatRows.SyncRows` | client/src/converters.rs:301-331 | for any lists the target's ids come first, in order, in rows that need no update; without repeated ids nothing is left below if and only if the common ids kept their order, and then survivors stay in place untouched unless they had to be updated |
| `ChatRows.SwappedRowIsRepeated` | client/src/converters.rs:322-330 | two rows that change places end as three, the one moved up twice |
| `ChatRows.MessageList.SyncChatRows` | client/src/converters.rs:301-331 | the same for the window's list, with the branch for a model of another type |
| `Mentions.EscapeMarkdown` | client/src/converters.rs:84-93 | the loop writes the escape of the text |
| `Mentions.PunctuationIsEscaped` | client/src/converters.rs:82-93 | each of the 32 ASCII punctuation characters is escaped with a backslash |
| `Mentions.OthersAreNotEscaped` | client/src/converters.rs:82-93 | and no other character is |
| `Mentions.EscapeRoundTrip` | client/src/converters.rs:82-93 | reading escaped text gives it back and stops at the first punctuation that is not escaped: none is inside |
| `Mentions.EscapeInjective` | client/src/converters.rs:82-93 | two texts escape alike only if they are equal |
| `Mentions.MarkdownWithMentions` | client/src/converters.rs:98-119 | the cursor loop writes the gaps and the tagged spans in turn |
| `Mentions.TagIs` | client/src/converters.rs:107-117 | the tag of a mention, character by character |
| `Mentions.MarkupRoundTrip` | client/src/converters.rs:95-119 | undoing tags and escapes span by span rebuilds the text |
| `Mentions.MarkupDecides` | client/src/converters.rs:98-119 | two markups of one text are equal if and only if they tag the same spans in the same colour, since a mention starts with an at sign |
| `Leb128.WriteVarint` | scripts/build_catalogue.py:431-439 | the loop writes the LEB128 encoding |
| `Leb128.VarintRoundTrip` | scripts/build_catalogue.py:431-439 | a reader by section 7.6 of DWARF version 5 gives the number back and takes exactly its bytes, whatever follows |
| `Leb128.NoEndNoNumber` | mello-core/src/catalogue.rs:63-80 | a reader finds no number exactly where no byte ends one |
| `Leb128.PrefixFree` | scripts/build_catalogue.py:431-439 | no encoding is a prefix of another |
| `Leb128.ShortestAndOnly` | scripts/build_catalogue.py:431-439 | no other byte string for the number is as short |
| `Leb128.LengthIsLogarithm` | scripts/build_catalogue.py:431-439 | k bytes hold exactly the numbers below 128 to the k |
| `Leb128.FiveBytesFor32Bits` | scripts/build_catalogue.py:431-439 | 32-bit numbers take at most five bytes |
| `AppidIndex.SortedItems` | scripts/build_catalogue.py:452 | the pairs of the map, each once, keys strictly increasing |
| `AppidIndex.WriteBody` | scripts/build_catalogue.py:453-459 | the loop writes the deltas, none of them negative, and the games |
| `AppidIndex.BodyRoundTrip` | scripts/build_catalogue.py:445-451 | a reader without bounds that undoes the writer entry by entry undoes the whole body |
| `AppidIndex.BuildAppidIndex` | scripts/build_catalogue.py:442-460 | for every map the file is marked "MAI2" with the count of pairs, lists exactly its sorted pairs, and a reader without bounds gets them back; it fails if and only if the count exceeds 32 bits; 32-bit maps take at most ten bytes a pair |
| `AppidIndex.ListDeterminesMap` | scripts/build_catalogue.py:442-460 | the pairs read determine the map |
| `AppidReader.ReadVarint32` | mello-core/src/catalogue.rs:63-80 | the client's loop is the reader by the standard, up to five bytes and without the bits beyond 32 |
| `AppidReader.ReadsWritten` | mello-core/src/catalogue.rs:63-80 | a written number comes back whole below 32 bits, without its high bits below 35, and stops the reader from there on |
| `AppidReader.WrapsSilently` | mello-core/src/catalogue.rs:69-74 | 2 to the 32 is read as 0 |
| `AppidReader.Parse` | mello-core/src/catalogue.rs:349-369 | the loop gives the pairs that follow the header, one after the other, or nothing |
| `AppidReader.PairReads` | mello-core/src/catalogue.rs:356-365 | a written pair is read unless its key would go beyond 32 bits: then the file is refused |
| `AppidReader.UnmarkedIsRefused` | mello-core/src/catalogue.rs:345-355 | a file that is too short or not marked is refused |
| `AppidReader.ClientReadsPairs` | mello-core/src/catalogue.rs:349-369 | the client gets the written list back, whatever follows it, if and only if every key and game is a 32-bit number |
| `AppidReader.ClientReadsMap` | mello-core/src/catalogue.rs:349-369 | the client has exactly the map if and only if it fits 32 bits |
| `AppidReader.IgdbId` | mello-core/src/catalogue.rs:383-401 | binary search in the expanded list answers as the map does |
| `SortedKeys.Search` | scripts/build_catalogue.py:368-378 | binary search finds the key if and only if it is there |
| `StringBlobs.AddedReads` | scripts/build_catalogue.py:325-334 | a string added reads back cut to 255 bytes, and nothing stored before moves |
| `StringBlobs.AddedOnce` | scripts/build_catalogue.py:329-330 | a string added again, whatever came in between, gets the same reference and stores nothing |
| `StringBlobs.ReadBackIsCut` | mello-core/src/catalogue.rs:276-285 | a text reads back as its first 255 bytes if and only if they end at a character, and as empty otherwise |
| `StringBlobs.LongAccentsAreLost` | scripts/build_catalogue.py:328 | a name of 128 or more two-byte letters reads back as empty |
| `StringBlobs.StringBlob.Add` | scripts/build_catalogue.py:325-334 | the method does this to the buffer and the map |
| `HeadFormat.UnpackPack` | scripts/build_catalogue.py:404-413 | a record's 32 bytes give back its id, five offsets and five lengths |
| `HeadFormat.UnpackPackExe` | scripts/build_catalogue.py:420-422 | an entry's 16 bytes give back its references and record index |
| `Bytes.Le32Is` | scripts/build_catalogue.py:405-425 | 32-bit numbers are written in four bytes, the low one first |
| `HeadFormat.PackLayout` | scripts/build_catalogue.py:405-412 | where each field of a record is: id, five offsets, five lengths, three zeros |
| `HeadFormat.PackExeLayout` | scripts/build_catalogue.py:420-424 | where each field of an executable is |
| `HeadFormat.HeaderRefused` | mello-core/src/catalogue.rs:105-120 | a file is refused exactly when it is too short, is not marked "MHD2", or has its strings too early or after its end |
| `HeadFormat.RowAt` | scripts/build_catalogue.py:404-405 | in a table of fixed-width rows the place of a row follows from its number |
| `HeadFormat.HeadRoundTrip` | mello-core/src/catalogue.rs:107-131 | the client accepts the header and finds records, entries and strings where it says |
| `HeadFormat.FindRecord` | mello-core/src/catalogue.rs:303-318 | binary search over the file finds a record if and only if one has the id |
| `Catalogue.RankedInOrder` | scripts/build_catalogue.py:384 | the stable descending sort lists every game once, better games first, ties in dump order |
| `Catalogue.TopByRank` | scripts/build_catalogue.py:384 | a game is among the first N exactly when fewer than N games beat it |
| `Catalogue.IncludedIs` | scripts/build_catalogue.py:384-386 | included are exactly the games of the dump that are curated or outranked by fewer than the wanted number, a game outranking another by higher popularity or, if equal, by its place in the dump |
| `Catalogue.LastMappingWins` | scripts/build_catalogue.py:389-403 | the last mapping for a game gives its curated id |
| `Catalogue.NoMappingNoId` | scripts/build_catalogue.py:389-403 | a game without a mapping goes by its slug |
| `Catalogue.ExesInOrder` | scripts/build_catalogue.py:414-424 | the executables of each mapping follow those before it, with its own game and path |
| `HeadWriter.AddGame` | scripts/build_catalogue.py:394-413 | a record's references hold the game's five strings, and earlier ones stay readable; it packs if and only if id and offsets are 32-bit numbers |
| `HeadWriter.WriteRecords` | scripts/build_catalogue.py:394-413 | the record table holds every included game in order of id, and the index finds each; there is one if and only if all ids and offsets fit |
| `HeadWriter.WriteExes` | scripts/build_catalogue.py:415-424 | the executable table holds every executable with its own mapping's record; a failure names a mapping that stops it |
| `HeadWriter.BuildHead` | scripts/build_catalogue.py:355-430 | a file is written if and only if every curated game is in the dump and every id, size and packed string offset is a 32-bit number, and it then holds exactly the included games and executables; included are the most popular games by the rule of `IncludedIs` and the curated ones |
| `HeadWriter.SmallFits` | scripts/build_catalogue.py:366-428 | a pack fits whenever its counts are small enough, whatever its strings |
| `HeadReader.FindGame` | mello-core/src/catalogue.rs:303-318 | looking up any id finds exactly the included games, field by field: their own strings as far as they can be read back, their cover if they have one, and the curated id |
| `HeadReader.BuildExeMap` | mello-core/src/catalogue.rs:134-151 | the index of the executables lists for every name that reads back its entries in order, and no other |
| `HeadReader.LookupExe` | mello-core/src/catalogue.rs:174-204 | a process resolves to the game of the first mapping of its name whose path is part of its own, else of the first without a path, also outside the top N; a path that does not read back counts as none |
| `HeadReader.ClaimantIs` | mello-core/src/catalogue.rs:174-204 | spelled out: the first of the name whose guard is part of the path; if there is none, the first of the name without a guard; else none |
| `HeadReader.AsciiCapitalsAreFound` | mello-core/src/catalogue.rs:174-177 | a process is looked up under exactly the names of which it is a spelling with capitals of ASCII |
| `HeadReader.ClaimsAreOwn` | scripts/build_catalogue.py:416-420 | the names and paths by which a process is resolved are the mappings' own if and only if none is longer than 255 bytes |
| `HeadReader.CapitalIsMissed` | mello-core/src/catalogue.rs:174-177 | a process with an accented capital is not found under the name that the script lowered |
| `Catalogue.ResolveMappings` | scripts/build_catalogue.py:343-363 | mappings resolve in order by slug, else by alternative name; otherwise exactly the unresolved ones are reported |
| `Catalogue.ResolveIs` | scripts/build_catalogue.py:349-351 | a known slug decides, else the slug with spaces for dashes in lower case if it is an alternative name, else nothing |
| `Catalogue.MissingAt` | scripts/build_catalogue.py:345-360 | every mapping that does not resolve is reported, in order |
| `Catalogue.OnlyMissing` | scripts/build_catalogue.py:345-360 | and no other |
| `Catalogue.ResolvedAreKnown` | scripts/build_catalogue.py:523-530 | mappings resolved through the dump's own names lead to games of the dump, so writing never meets an unknown one |
| `Sorting.SortIsSorted` | client/build_notices.rs:124 | the sort is ordered and a permutation |
| `Sorting.SortIsStable` | client/build_notices.rs:124 | members that tie keep their order |
| `NoticesFormat.NoticesRoundTrip` | client/src/about.rs:26-38 | parsing what was written gives it back if and only if no field holds a record separator and no name or licence a field separator; an empty list parses to nothing |
| `NoticesFormat.SplitJoin` | client/src/about.rs:27-29 | splitting undoes joining when no part holds the separator |
| `NoticesFormat.ParsedAreClean` | client/src/about.rs:26-38 | every record parsed is one that could have been written |
| `NoticesFormat.ParseConcat` | client/src/about.rs:26-38 | records are read one by one, whatever is before and after their separator |
| `NoticesFormat.ParseFull` | client/src/about.rs:26-38 | a record of three fields is a notice, and its third field may hold field separators |
| `NoticesFormat.ParseShort` | client/src/about.rs:26-38 | a record with less than two field separators is skipped |
| `NoticesFormat.WrittenIs` | client/build_notices.rs:136-151 | the written form, with U+001F between fields and U+001E between records |
| `Notices.GroupByText` | client/build_notices.rs:116-120 | the map groups dependencies by identical text, in their order |
| `Notices.Render` | client/build_notices.rs:121-146 | the loop writes one line a member and each licence once, in order of first use |
| `Notices.Generate` | client/build_notices.rs:110-152 | the asset holds one record for each text, ordered by first name and record |
| `Notices.EachDepInOneRecord` | client/build_notices.rs:116-120 | every dependency is in exactly one record, as often as it was given |
| `Notices.TextsApart` | client/build_notices.rs:8-9 | two dependencies share a record if and only if their texts are identical |
| `Notices.NamesAreLines` | client/build_notices.rs:124-131 | the names of a record, line by line, are its members in order: name, space, version |
| `Notices.GroupInOrder` | client/build_notices.rs:124 | members are in the order of their names, and of their versions under one name |
| `Notices.LicensesInOrder` | client/build_notices.rs:132-134 | licences are in the order of their first use |
| `Notices.RecordIs` | client/build_notices.rs:136-143 | licences are joined with semicolons, the text is trimmed, and the sort key is the first member's name in lower case |
| `Notices.RecordsInOrder` | client/build_notices.rs:147-150 | records are in the order of their first members' names in lower case, and of themselves under one name |
| `Notices.GeneratedParses` | client/build_notices.rs:110-152 | the parser reads the written asset back as exactly the written records, in order, if and only if no dependency holds a record separator, nor a field separator but in its text |
| `ContainFit.PackRoundTrip` | client/src/dcomp_presenter.rs:61-67 | a packed size unpacks to itself |
| `ContainFit.PackInjective` | client/src/dcomp_presenter.rs:61-67 | comparing packed sizes is comparing sizes |
| `ContainFit.FitIsLargest` | client/src/dcomp_presenter.rs:675-680 | the scaled picture fits, fills one dimension, and no larger scale fits |
| `ContainFit.CardPictureFits` | client/src/dcomp_presenter.rs:650-726 | on the card the picture keeps its shape, is centred in the inset canvas and fills one dimension; on the screen the clip is exactly the overlap of canvas and viewport |
| `ContainFit.WindowPictureFits` | client/src/dcomp_presenter.rs:824-834 | in the pop-out window the picture is centred, as large as fits, and unclipped |
| `ContainFit.HiddenIffOutside` | client/src/dcomp_presenter.rs:650-668 | a card update hides the picture if and only if no height is both on the canvas, inset by two as far as it has room, and in the viewport |
| `Presenter.DCompPresenter.UpdateGeometry` | client/src/dcomp_presenter.rs:626-734 | geometry is recorded always, applied only on the card, and refused only for an empty stream |
| `Presenter.DCompPresenter.RefreshGeometryIfResized` | client/src/dcomp_presenter.rs:392-406 | a changed stream size is applied to whatever shows the video |
| `Presenter.DCompPresenter.ApplyWindowGeometry` | client/src/dcomp_presenter.rs:824-863 | the window's picture for the size at hand |
| `Presenter.DCompPresenter.ShowInWindow` | client/src/dcomp_presenter.rs:758-782 | the video moves out once |
| `Presenter.DCompPresenter.ResizeWindowTo` | client/src/dcomp_presenter.rs:785-795 | a resize counts only while there is a window |
| `Presenter.DCompPresenter.ShowInCard` | client/src/dcomp_presenter.rs:799-820 | the card's last geometry applies on the way back |
| `Presenter.RunFollows` | client/src/dcomp_presenter.rs:392-406 | an invariant over every run ties recorded geometry, window, sizes and picture to the history |
| `Presenter.DeferredIsDirect` | client/src/dcomp_presenter.rs:626-734 | after any run the picture is the one that the latest geometry, window and looked-at stream size call for |
| `Presenter.RefreshCatchesUp` | client/src/dcomp_presenter.rs:392-406 | after a refresh that size is the stream's size at that moment |
| `Presenter.PopOutAndBack` | client/src/dcomp_presenter.rs:797-820 | popping out and back, whatever geometry arrived meanwhile, leaves the card as if updated in place |
| `Presenter.ShowsPaused` | client/src/dcomp_presenter.rs:663-673 | which operations show a video that the pause card hides: the switch, and whatever applies a card geometry in view for a non-empty stream |
| `Presenter.PauseHolds` | client/src/dcomp_presenter.rs:392-406 | over any run after a pause the video stays hidden throughout if and only if no such operation comes |
| `Presenter.PausedIsShown` | client/src/dcomp_presenter.rs:669-673 | and one comes: a card update in view shows the paused video |
| `CardVisibility.ShownOnCard` | client/src/dcomp_presenter.rs:413-428 | after any run that ends on the card, since its geometry was last applied the switch has the last word; if it was not used, the video is shown exactly when that geometry is in view, and an empty stream decides nothing |
| `CardVisibility.SwitchShowsOutOfView` | client/src/dcomp_presenter.rs:413-428 | the switch shows a video whose card has left the viewport |
| `CardVisibility.WindowShows` | client/src/dcomp_presenter.rs:824-840 | whatever gives the pop-out window a picture shows the video if the switch is on |
| `CardVisibility.SwitchHolds` | client/src/dcomp_presenter.rs:413-414 | after any run the switch is where it was last put |
| `CardVisibility.PopOutShows` | client/src/dcomp_presenter.rs:837-840 | popping out shows a video whose card is out of view, and not one that is paused |
| `ChatWindow.ChatScrollState.RevealLocalHistory` | client/src/chat_ui.rs:60-68 | up to a page of what is hidden is shown and counted |
| `ChatWindow.ChatScrollState.OnIncomingMessage` | client/src/chat_ui.rs:79-96 | at the bottom or for an own message the window goes back to its size; otherwise it grows by one and the unread id is set once |
| `ChatWindow.ChatScrollState.OnServerHistory` | client/src/chat_ui.rs:106-110 | a page from the server widens the window by its length |
| `ChatWindow.ChatScrollState.ApplyToWindow` | client/src/chat_ui.rs:126-145 | more history is asked for exactly while anything older exists, and the count of prepended rows is told once |
| `ChatWindow.UnreadStaysOk` | client/src/chat_ui.rs:43-124 | over any run new messages are flagged if and only if there is an unread id, and neither at the bottom |
| `ChatWindow.UnreadIdNamesFirstUnseen` | client/src/chat_ui.rs:79-124 | over any run without opening at an unread rule, the unread id names a message if and only if that is the first foreign one to come while the user is up, with nothing clearing since |
| `ChatRequests.RequestsFollow` | client/src/chat_ui.rs:43-145 | over any run, older pages are promised as the server last said, the bottom is asked for since an event that asks for it unless the unread rule was opened after it, and the rule from its opening to the next request |
| `ChatRequests.CountFollows` | client/src/chat_ui.rs:106-145 | over any run that begins with a load, the pending count is what the last page, load or request put there |
| `ChatRequests.RowsStay` | client/src/chat_ui.rs:71-124 | scrolling, the jump to the bottom, the unread rule and a request leave the rows as they are |
| `ChatWindow.NotLoadedAt` | client/src/handlers/chat.rs:341-365 | every message of a page that is not loaded goes in, in order |
| `ChatWindow.OnlyNotLoaded` | client/src/handlers/chat.rs:341-365 | and no other |
| `ChatReading.ReadingStep` | client/src/handlers/chat.rs:198-205 | while reading up, an event keeps the rows on screen together, with exactly the rows counted as above over them; a loaded message that comes again replaces its own row |
| `ChatReading.ReadingKeepsRows` | client/src/chat_ui.rs:79-124 | over any run of such events the rows on screen stay together, with exactly the rows added above over them and the new ones below |
| `ChatReading.BackToWindow` | client/src/chat_ui.rs:43-96 | a load, an own message or a message met at the bottom shows exactly the newest 200 |
| `ChatWindow.RevealsEverything` | client/src/chat_ui.rs:58-68 | all loaded messages are shown, and the next call gives 0, exactly after ceil(hidden / 50) calls |
| `ChatReading.ToldAddsUp` | client/src/chat_ui.rs:106-145 | for every reading run the counts told, with the one pending, are exactly the rows that came above if and only if no pending count was overwritten and no loaded message came again while rows were hidden |
| `ChatReading.ClientTellsAll` | client/src/callbacks/chat.rs:217-236 | as the client refreshes after every page from the server and every local page that shows anything, the first cannot happen, and all rows are told if and only if no loaded message came again while rows were hidden |
| `ChatReading.PageIsTold` | client/src/callbacks/chat.rs:217-236 | the client's ordinary page load, where nothing loaded is left to show, is such a run, and exactly the new messages of the page are told |
| `ChatReading.CountIsOverwritten` | client/src/chat_ui.rs:112-114 | without the refresh the count of a local page is lost to the page that follows |
| `ChatReading.RowAppearsUntold` | client/src/handlers/chat.rs:334-335 | and it does: a loaded message that comes again makes one row appear of which the window is told nothing |
| `DeepLinks.ParseIsDirect` | client/src/deep_link.rs:7-45 | matching in lower case and extracting from the original is one pass over the original: the value keeps its case |
| `DeepLinks.ParseLower` | client/src/deep_link.rs:7-45 | a link in another case is the same link with its value in that case |
| `DeepLinks.WebJoinPath` | client/src/deep_link.rs:102-115 | the loop over the schemes skips exactly scheme and `www.` |
| `DeepLinks.BareCodes` | client/src/deep_link.rs:118-129 | codes are exactly eight letters or digits, or four and four around a dash |
| `DeepLinks.LinkCodeLower` | client/src/deep_link.rs:84-129 | normalising ignores case |
| `DeepLinks.LinkCodeIsCanonical` | client/src/deep_link.rs:84-129 | a normalised code is in upper case and its own normal form |
| `DeepLinks.InviteIgnoresCase` | client/src/deep_link.rs:62-81 | invite input reads the same in any case |
| `DeepLinks.InviteIsCanonical` | client/src/deep_link.rs:62-81 | every invite read is canonical |
| `DeepLinks.LoungeIsInvite` | client/src/deep_link.rs:142-164 | every text the clipboard reader accepts for the lounge is accepted by the invite field with the same code |
| `LinkShapes.LinkIs` | client/src/deep_link.rs:7-45 | a text is a link exactly when it is `mello://` in any case, `join` or `crew` in any case, a slash and a value, then slashes, and a query or a fragment or nothing |
| `LinkShapes.CodeIs` | client/src/deep_link.rs:118-129 | a code is its two halves in upper case around a dash |
| `LinkShapes.NameIs` | client/src/deep_link.rs:91-98 | a custom name is three to twenty-four letters, digits and dashes, with no dash at an end and no two in a row |
| `LinkShapes.WebPathIs` | client/src/deep_link.rs:102-115 | a web link is one of six ways to write the host, and what follows it |
| `LinkShapes.InviteIs` | client/src/deep_link.rs:62-81 | exactly what the invite field accepts: a link to join, one on the host, or a bare code |
| `LinkShapes.LoungeIs` | client/src/deep_link.rs:142-164 | exactly what the clipboard reader accepts, for any host: at most 256 bytes and a web link that joins |
| `Percentile.PercentileMonotone` | scripts/stream-gate-score.py:31-38 | a larger percentile is no smaller, across segments |
| `Percentile.PercentileBounds` | scripts/stream-gate-score.py:31-38 | every percentile is between the least value, which is percentile 0, and the greatest, which is percentile 100 |
| `Percentile.PercentileIsOrderStatistic` | scripts/stream-gate-score.py:31-38 | where p percent of the last rank is a whole rank, it is the value with that rank, however the values are sorted |
| `Percentile.PercentileBetweenRanks` | scripts/stream-gate-score.py:31-38 | between two neighbouring ranks it is as far between their values as the rank is |
| `Percentile.PercentileOfPermutation` | scripts/stream-gate-score.py:31-38 | the order of the values does not matter |

## Left out

- Slint setters and models, rendering, image decoding, avatars, Direct3D and DirectComposition calls, waits and uploads: foreign calls.
- `git`, `cargo tree`, file-system walks, downloads and CSV reading: input and output.
- `mello_core` but for the catalogue readers: mention spans, links, emoji tests and messages made ready for display are parameters, with the one fact needed (spans are sorted, disjoint and within the text) as a precondition.
- The row of the unread rule: a constant row, inserted where its message stands.
- `by_game_id`, `by_name`, `search` and `appids_for_igdb` of the catalogue: linear scans over the records read here.
- `GifAnimation.GifAnimator.AnimateEntries`: the frames handed to the handler are returned as a map, so their order over different URLs is not modelled; a handler that calls back into the animator is modelled in `GifProtocol` only.
- `element_before`, block kinds and `check_source` of the accessibility scanner: finite look-ups over the blocks and texts modelled here; its violation line numbers are not part of this model.
- `A11yBlocks.OwnText`: the sort of the children is left out because blocks already come in the order of their braces.
- `days_between`, `ago_label`, `recap_age_label`, `week_of_label`: one-line wording over the day numbers.
- `derive_short_name`: word splitting; a game carries its short name.
- `HeadWriter.BuildHead`: which exception stops a file that cannot be written is not told apart.
- `AppidReader.Parse`: the expanded pairs are kept as pairs, not as eight bytes each.
- `Notices.Generate`: `str::to_lowercase` is a parameter, and the first sort of the groups by text is left out because the records are sorted again as a whole.
- `Presenter.DeferredIsDirect`: cursor and wash layers, and failing Windows calls, are not modelled; a hidden card keeps its old picture, so nothing is said of offset and scale while out of view.
- `DeepLinks.Parse`: texts are sequences of characters; byte lengths enter only the clipboard limit.
- `Percentile.Percentile`: only percentiles from 0 to 100, the range of a rank, are modelled.
- `foreground_monitor`, `edit_shortcuts`, `chat_images`, the rest of `avatar`, flow tests and end-to-end ports: only finite or easy claims.
