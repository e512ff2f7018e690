# A verified model of the discogs-player core

discogs-player is a desktop record-collection player. A React front end browses
albums scraped from a Discogs seller's inventory and plays their YouTube videos
through a playback queue. A Tauri (Rust) back end scrapes the inventory and
release details into SQLite. Two Python scripts turn the Discogs API
documentation into one Markdown file per section.

This project models the logic of that system in Dafny, one module per source file:

- `Queue` (values) and `QueueEngine` (a class) cover the playback queue of
  `src/context/QueueContext.tsx`. The class holds the queue, the active item id and
  the shared audio transport. Each action updates those fields in place and is
  proved to land on the state the matching `Queue` function describes. The
  lemmas about those functions state what the actions promise: the active item is
  absent or queued, inserts never move it, and removal hands over to the successor.
- `QueueHelpers` turns an album, or one of its tracks, into queue items
  (`src/lib/queue-helpers.ts`).
- `Audio` is the transport record of `src/context/AudioContext.tsx`. The
  one-second "seeking" timer is an explicit event.
- `AlbumFilters` covers the collection filters, sort and option lists of
  `src/hooks/useAlbumFilters.ts`. `Sorting` is the stable comparator sort they use.
- `DataUpdates` holds the optimistic list updates of `src/context/DataContext.tsx`.
- `MockApi` is the in-memory like store of `src/services/api.ts`.
- `FilterWidgets` is the widget value logic of `src/components/filters/FilterBar.tsx`.
- `SellerUrl` is seller-name extraction from a URL path (`src/services/scraper.ts`).
- `ReleaseFields` holds the values `src-tauri/src/scraper/db.rs` derives from a release
  before writing it.
- `Inventory` is the paginated inventory fetch of `src-tauri/src/scraper/inventory.rs`.
- `Runner` is the two-phase scrape job and its cancellation flag
  (`src-tauri/src/scraper/runner.rs`).
- `MarkdownSections` holds the heading splitter and file-name sanitiser that both
  documentation scripts share. `ScrapeDocs` holds the URL-to-path mapping and the
  fallback splitter of `docs/discogs-api/scrape_discogs_docs.py`. `SplitDocs` holds
  the split-and-write run of `docs/discogs-api/split_existing_docs.py`.
- `Maybe`, `Text` and `Catalog` are shared: optional values, string operations, and
  the records of `src/types.ts`.

Some parts are state that the source changes step by step: the queue provider,
the audio transport, the data provider, the mock service's liked set, the scrape
job, and the loops of the scraper and the scripts. These are classes or methods
with loops. Each is proved equal to a specification function, and the source's
promises are proved about that function. Services the code calls are parameters
of the model:

- the HTTP client, the database, the other thread that cancels a job, and file writes;
- the clock (`weekAgo`, `currentYear`);
- the random id source, which becomes a supply of fresh natural numbers.

These services are functions indexed by the position of the call (page number,
listing index, section index), so every behaviour of the real service is one
choice of argument.

Two behaviours of the code are kept as they are:

- `togglePlay` flips the play flag even when nothing is active or queued
  (src/context/AudioContext.tsx:25-27).
- Changing the active item leaves the transport's progress where it was: the queue
  actions set only the active id and the play flag (src/context/QueueContext.tsx:157-197).

## Model

| member | source | states |
|---|---|---|
| Queue.FindItemIndex | src/context/QueueContext.tsx:64 | the first position whose id matches, -1 exactly when no queued item has that id |
| Queue.QueueIndex | src/context/QueueContext.tsx:62-65 | -1 exactly when nothing is active or the active id matches no item; otherwise the first position holding the active id |
| Queue.CurrentQueueItem | src/context/QueueContext.tsx:67-70 | absent exactly when `queueIndex` is -1; otherwise the item at `queueIndex`, whose id is the active id |
| Queue.QueueIndexOfDistinct | src/context/QueueContext.tsx:62-65 | with distinct ids, activating the item at k makes `queueIndex` equal k |
| Queue.InsertAt | src/context/QueueContext.tsx:38-40 | length grows by the block's length; positions before `index` keep their item, the block follows, then the old items shifted by the block's length |
| Queue.InsertAtRemovable | src/context/QueueContext.tsx:38-40 | the block sits at `index`, and cutting it out gives back the original queue (relative order of old items kept) |
| Queue.Without | src/context/QueueContext.tsx:225-227 | an in-range position is removed, with the items before it unchanged and the ones after shifted down by one; an out-of-range index changes nothing |
| Queue.PlayNow | src/context/QueueContext.tsx:109-121 | empty `items` change nothing; otherwise the items are inserted at `queueIndex + 1` (position 0 when nothing is active; the whole queue when it was empty), `items[0]` becomes active and playback is on |
| Queue.AddToQueue | src/context/QueueContext.tsx:123-125 | appends at the end; the active id and the play flag are untouched |
| Queue.InsertAfterActive | src/context/QueueContext.tsx:138-144 | `playAlbumNext`'s insertion at `queueIndex + 1`; the active id and the play flag are untouched |
| Queue.JumpToQueueIndex | src/context/QueueContext.tsx:151-155 | an index outside `[0, len)` changes nothing; in range, that item becomes active and playback is on |
| Catalog.FindAlbumIndex | src/context/QueueContext.tsx:169 | `albums.findIndex` by id: -1 exactly when no album has the id; otherwise the first album that does |
| Queue.AutoAdvanceItems | src/context/QueueContext.tsx:168-181 | when no catalog album has the last queued item's album id, nothing is appended; AutoAdvanceAfterFirst states the choice otherwise |
| Queue.AutoAdvanceAfterFirst | src/context/QueueContext.tsx:168-181 | when `albums[k]` is the first album with the last queued item's album id, the tail is the items of `albums[k + 1]`, or none when `k` is last; it is non-empty exactly when a next album exists and has videos |
| Queue.NextTrack | src/context/QueueContext.tsx:157-185 | `nextTrack`; its behaviour is stated by NextOnEmpty, NextMovesOneForward, NextPastEnd, NextOntoAppended, NextActive and NextKeepsDistinct |
| Queue.PrevTrack | src/context/QueueContext.tsx:187-197 | `prevTrack`; its behaviour is stated by PrevOnEmpty, PrevNeverNegative and PrevActive |
| Queue.Apply | src/context/QueueContext.tsx:109-265 | one queue action on the state; ApplyKeepsActiveValid and ApplyKeepsDistinct state what every action preserves |
| Queue.PlayTrack | src/context/QueueContext.tsx:127-131 | `playTrack`: `playNow` of the chosen track's item, nothing when the track has none; PlayTrackActive and PlayTrackKeepsDistinct state its behaviour |
| Queue.PlayAlbum | src/context/QueueContext.tsx:133-136 | `playAlbum`: `playNow` of the album's items; PlayAlbumKeepsDistinct states its behaviour |
| Queue.PlayAlbumNext | src/context/QueueContext.tsx:138-144 | `playAlbumNext`: the album's items go right after the active item, or at the front with none active; InsertKeepsCurrent, PlayAlbumNextKeepsDistinct and PlayNextThenAdvance state its behaviour |
| Queue.AddAlbumToQueue | src/context/QueueContext.tsx:146-149 | `addAlbumToQueue`: the album's items go at the end of the queue; InsertKeepsCurrent and AddAlbumKeepsDistinct state its behaviour |
| Queue.RemoveFromQueue | src/context/QueueContext.tsx:199-249 | `removeFromQueue`; RemoveEffect, RemoveActive, RemoveKeepsCurrent, RemoveKeepsDistinct, QueueIndexAfterRemove, RemoveActiveSuccessorTakesPlace and RemoveMinusOneActivatesFirst state its behaviour |
| Queue.NextOnEmpty | src/context/QueueContext.tsx:157-158 | on an empty queue `nextTrack` returns at once: the state, play flag included, is unchanged |
| Queue.PrevOnEmpty | src/context/QueueContext.tsx:187-188 | on an empty queue `prevTrack` returns at once: the state, play flag included, is unchanged |
| Queue.ClearQueue | src/context/QueueContext.tsx:251-255 | empty queue, no active id, not playing |
| Queue.UpdateQueueItemTitle | src/context/QueueContext.tsx:257-265 | same length, active id and play flag; only the item at `index` gets the new title, and an out-of-range index changes nothing |
| Queue.ApplyKeepsActiveValid | src/context/QueueContext.tsx:109-265 | every action preserves "the active id is absent or names a queued item" |
| Queue.PlayNowActive | src/context/QueueContext.tsx:109-121 | `playNow` preserves the active-id invariant |
| Queue.NextActive | src/context/QueueContext.tsx:157-185 | `nextTrack` preserves the active-id invariant |
| Queue.RemoveActive | src/context/QueueContext.tsx:199-249 | `removeFromQueue` preserves the active-id invariant |
| Queue.InsertedQueued | src/context/QueueContext.tsx:38-40 | after an insertion, exactly the old items and the inserted ones are queued |
| Queue.WithoutKeeps | src/context/QueueContext.tsx:225-227 | removing one position keeps every other item queued |
| Queue.InsertKeepsDistinct | src/context/QueueContext.tsx:38-40 | inserting fresh items keeps the queue's ids distinct and below the id supply |
| Queue.AlbumItemsFresh | src/lib/queue-helpers.ts:24 | items built from the id supply are fresh for a queue whose ids are all below it |
| Queue.WithoutKeepsDistinct | src/context/QueueContext.tsx:225-227 | removal keeps ids distinct and below the supply |
| Queue.PlacedKeepsDistinct | src/context/QueueContext.tsx:38-40 | fresh items placed at any position keep ids distinct and below the advanced supply |
| Queue.PlayTrackKeepsDistinct | src/context/QueueContext.tsx:127-131 | `playTrack` keeps ids distinct and below the advanced supply |
| Queue.ActiveNotFreshIds | src/lib/queue-helpers.ts:24 | ids drawn from the supply differ from every queued id |
| Queue.PlayNowKeepsDistinct | src/context/QueueContext.tsx:109-121 | `playNow` with fresh items keeps ids distinct and below the supply |
| Queue.AddToQueueKeepsDistinct | src/context/QueueContext.tsx:123-125 | `addToQueue` with fresh items keeps ids distinct and below the supply |
| Queue.AppendKeepsDistinct | src/context/QueueContext.tsx:123-125 | appending fresh items keeps ids distinct and below the supply |
| Queue.InsertAfterActiveKeepsDistinct | src/context/QueueContext.tsx:138-144 | inserting fresh items after the active one keeps ids distinct and below the supply |
| Queue.PlayAlbumKeepsDistinct | src/context/QueueContext.tsx:133-136 | `playAlbum` keeps ids distinct and below the supply advanced by one id per video |
| Queue.PlayAlbumNextKeepsDistinct | src/context/QueueContext.tsx:138-144 | `playAlbumNext` keeps ids distinct and below the supply advanced by one id per video |
| Queue.AddAlbumKeepsDistinct | src/context/QueueContext.tsx:146-149 | `addAlbumToQueue` keeps ids distinct and below the supply advanced by one id per video |
| Queue.AppendAlbumKeepsDistinct | src/context/QueueContext.tsx:171-176 | appending an album's freshly built items keeps ids distinct |
| Queue.AppendIdsBelow | src/context/QueueContext.tsx:171-176 | after appending an album's freshly built items every id lies below the advanced supply |
| Queue.RemoveKeepsDistinct | src/context/QueueContext.tsx:199-249 | `removeFromQueue` keeps ids distinct and below the supply |
| Queue.RetitleKeepsDistinct | src/context/QueueContext.tsx:257-265 | `updateQueueItemTitle` changes no id |
| Queue.NextKeepsDistinct | src/context/QueueContext.tsx:157-185 | `nextTrack` (including its auto-extension) keeps ids distinct and below the advanced supply |
| Queue.ApplyKeepsDistinct | src/context/QueueContext.tsx:109-265 | given fresh caller-built items, every action keeps ids distinct and below the supply advanced by the ids it drew |
| Queue.QueueIndexAfterInsert | src/context/QueueContext.tsx:116-117 | inserting fresh items after the active position leaves `queueIndex` unchanged |
| Queue.InsertKeepsCurrent | src/context/QueueContext.tsx:138-149 | `playAlbumNext` and `addAlbumToQueue` never change the current item |
| Queue.ActiveNotFresh | src/context/QueueContext.tsx:138-144 | a valid active id is never carried by a freshly built item |
| Queue.PlayNextThenAdvance | src/context/QueueContext.tsx:138-165 | `playAlbumNext(album)` then `nextTrack()` activates the album's first item and plays, whatever the queue held |
| Queue.QueueIndexIs | src/context/QueueContext.tsx:62-65 | an active id whose first occurrence is at k gives `queueIndex` k |
| Queue.InsertedKeepsOld | src/context/QueueContext.tsx:38-40 | every old item is still queued after an insertion |
| Queue.InsertedFrom | src/context/QueueContext.tsx:38-40 | every position after an insertion holds an old item or an inserted one |
| Queue.AddToQueueActive | src/context/QueueContext.tsx:123-125 | `addToQueue` preserves the active-id invariant |
| Queue.InsertAfterActiveActive | src/context/QueueContext.tsx:138-144 | `playAlbumNext`'s insertion preserves the active-id invariant |
| Queue.PlayTrackActive | src/context/QueueContext.tsx:127-131 | `playTrack` preserves the active-id invariant |
| Queue.JumpActive | src/context/QueueContext.tsx:151-155 | `jumpToQueueIndex` preserves the active-id invariant |
| Queue.PrevActive | src/context/QueueContext.tsx:187-197 | `prevTrack` preserves the active-id invariant |
| Queue.RetitleActive | src/context/QueueContext.tsx:257-265 | `updateQueueItemTitle` preserves the active-id invariant |
| Queue.InsertBehindKeepsCurrent | src/context/QueueContext.tsx:138-149 | inserting items behind the active position, none carrying the active id, keeps the current item |
| Queue.NextPastEnd | src/context/QueueContext.tsx:167-184 | at the end of the queue `nextTrack` appends the next album's items and plays the first, or only stops; it draws exactly those items' ids |
| Queue.NextDrawsAutoAdvance | src/context/QueueContext.tsx:167-178 | at the last item `nextTrack` draws one fresh id per item of the album it appends, and none when it appends nothing |
| Queue.NextOntoAppended | src/context/QueueContext.tsx:171-180 | when `nextTrack` extends the queue, `queueIndex` lands on the first appended item, playback is on and the old items keep their places |
| Queue.QueueIndexAfterRemove | src/context/QueueContext.tsx:199-249 | removing a non-active position shifts `queueIndex` down by one when it lay before the active item, and leaves it unchanged otherwise |
| Queue.RemoveEffect | src/context/QueueContext.tsx:199-249 | exactly position `index` goes; removing the active item activates its old successor, or when it was last clears the active id and stops; removing another item leaves active id, play flag and current item unchanged |
| Queue.RemoveKeepsCurrent | src/context/QueueContext.tsx:199-236 | removing a position other than the active one leaves the current item as it was |
| Queue.RemoveActiveSuccessorTakesPlace | src/context/QueueContext.tsx:237-243 | with distinct ids the successor of a removed active item takes its position |
| Queue.NextMovesOneForward | src/context/QueueContext.tsx:157-185 | `queueIndex` advances by exactly one (also onto appended items) and plays; at the end of the catalog only the play flag is cleared; old items keep their place |
| Queue.PrevNeverNegative | src/context/QueueContext.tsx:187-197 | `queueIndex` moves back one when positive; at the front only playback is set; the queue is unchanged |
| Queue.JumpLands | src/context/QueueContext.tsx:151-155 | an in-range jump makes `queueIndex` equal the index and plays |
| Queue.RemoveMinusOneActivatesFirst | src/context/QueueContext.tsx:237-243 | `removeFromQueue(-1)` with nothing active and a non-empty queue activates the first item |
| Queue.FindVideoIndex | src/context/QueueContext.tsx:97-99 | the first video with the id, -1 exactly when none has it |
| Queue.FindVideo | src/context/QueueContext.tsx:97-99 | absent exactly when no video has the id; otherwise the first one that does |
| Queue.CurrentMedia | src/context/QueueContext.tsx:86-106 | no media without a current item or when its album is not in the catalog; else that album, the first of its videos with the item's video id, and the item's track index |
| QueueEngine.Engine.constructor | src/context/QueueContext.tsx:47-59 | the provider starts from the restored queue and active id (which need not name a queued item), with an id supply above every restored id |
| QueueEngine.Engine.QueueIndex | src/context/QueueContext.tsx:62-65 | the scan returns the derived `queueIndex` |
| QueueEngine.Engine.PlayNow | src/context/QueueContext.tsx:109-121 | lands on the state `Queue.PlayNow` describes; only the transport's play flag changes there |
| QueueEngine.Engine.AddToQueue | src/context/QueueContext.tsx:123-125 | lands on `Queue.AddToQueue`'s state |
| QueueEngine.Engine.PlayTrack | src/context/QueueContext.tsx:127-131 | lands on `playTrack`'s state and draws one id exactly when the track exists |
| QueueEngine.Engine.PlayAlbum | src/context/QueueContext.tsx:133-136 | lands on `playAlbum`'s state, drawing one id per video |
| QueueEngine.Engine.PlayAlbumNext | src/context/QueueContext.tsx:138-144 | lands on `playAlbumNext`'s state, drawing one id per video |
| QueueEngine.Engine.InsertAfterActive | src/context/QueueContext.tsx:138-144 | lands on `Queue.InsertAfterActive`'s state; the id supply is untouched |
| QueueEngine.Engine.AddAlbumToQueue | src/context/QueueContext.tsx:146-149 | lands on `addAlbumToQueue`'s state, drawing one id per video |
| QueueEngine.Engine.JumpToQueueIndex | src/context/QueueContext.tsx:151-155 | lands on `Queue.JumpToQueueIndex`'s state |
| QueueEngine.Engine.NextTrack | src/context/QueueContext.tsx:157-185 | lands on `nextTrack`'s state, drawing ids only for an auto-appended album |
| QueueEngine.Engine.AdvancePastEnd | src/context/QueueContext.tsx:167-184 | appends the next album's items and activates the first with playback on, drawing one id per item; with no items only stops playback |
| QueueEngine.Engine.PrevTrack | src/context/QueueContext.tsx:187-197 | lands on `prevTrack`'s state |
| QueueEngine.Engine.RemoveFromQueue | src/context/QueueContext.tsx:199-249 | lands on `removeFromQueue`'s state |
| QueueEngine.Engine.ClearQueue | src/context/QueueContext.tsx:251-255 | lands on `clearQueue`'s state: empty, nothing active, stopped |
| QueueEngine.Engine.UpdateQueueItemTitle | src/context/QueueContext.tsx:257-265 | lands on `updateQueueItemTitle`'s state |
| QueueEngine.PlayNowOnEmptyQueue | src/context/QueueContext.tsx:112-114 | from an empty queue `playNow([a, b, c])` queues exactly those, activates `a` and plays |
| QueueEngine.PlayNextBetween | src/context/QueueContext.tsx:138-144 | with `[a, b]` and `a` active, `playAlbumNext` puts the album's item between them and `a` stays active |
| QueueEngine.RemoveActiveMiddle | src/context/QueueContext.tsx:237-242 | with `[a, b, c]` and `b` active, removing position 1 leaves `[a, c]` with `c` active |
| QueueEngine.EndOfCatalogStops | src/context/QueueContext.tsx:167-184 | a lone item whose album is last in (or absent from) the catalog stays active and playback stops |
| QueueEngine.RemoveMinusOne | src/context/QueueContext.tsx:237-243 | `removeFromQueue(-1)` with nothing active removes nothing and activates the first item |
| QueueHelpers.SliceBound | src/lib/queue-helpers.ts:21 | a slice bound is clamped into `[0, len]` and an in-range bound is kept |
| QueueHelpers.JsSlice | src/lib/queue-helpers.ts:21 | for non-negative bounds the slice has `max(0, min(end, len) - min(start, len))` elements |
| QueueHelpers.ConvertAlbumToQueueItems | src/lib/queue-helpers.ts:10-35 | no videos give no items; for `startIndex >= 0` the length is `max(0, min(end, total) - startIndex)` with `end` defaulting to the video count; item i carries the video id and title of video `startIndex + i` (title falling back to "<artist> - <album title>"), track index `startIndex + i`, the album's video count, artist, album id, title and image, and id `firstId + i` |
| QueueHelpers.AlbumItems | src/lib/queue-helpers.ts:19-21 | the whole album yields one item per video |
| QueueHelpers.ConvertTrackToQueueItem | src/lib/queue-helpers.ts:43-64 | absent exactly when `trackIndex` is outside `[0, len)`; otherwise the item has the fresh id and that track index |
| QueueHelpers.NoVideosNoItems | src/lib/queue-helpers.ts:15-49 | an album without videos gives no items and no single track |
| QueueHelpers.TrackMatchesAlbum | src/lib/queue-helpers.ts:47-63 | a converted track equals the whole-album conversion's element at that index, id aside |
| QueueHelpers.ConvertedIdsFresh | src/lib/queue-helpers.ts:24-53 | the items of one call carry pairwise distinct ids from the supply's next block |
| Audio.Initial | src/context/AudioContext.tsx:19-23 | not playing, progress 0, duration 0, no seek request, not seeking, no reset scheduled |
| Audio.Toggled | src/context/AudioContext.tsx:25-27 | `togglePlay` on the state; ToggleTwice and Transport.TogglePlay state its behaviour |
| Audio.Sought | src/context/AudioContext.tsx:29-33 | `seekTo(time)` on the state; SeekKeepsPlayAndDuration, FirstResetClearsSecondSeek and Transport.SeekTo state its behaviour |
| Audio.AfterReset | src/context/AudioContext.tsx:34-37 | the reset that fires 1000 ms after a seek; RunKeepsSeekingBounded, FirstResetClearsSecondSeek and Transport.ResetTimerFires state its behaviour |
| Audio.RunKeepsSeekingBounded | src/context/AudioContext.tsx:29-38 | over any sequence of events the seeking flag is only up while a reset is still scheduled |
| Audio.NoPendingResetMeansNotSeeking | src/context/AudioContext.tsx:34-37 | from the initial state, once every scheduled reset has fired nothing is seeking |
| Audio.ToggleTwice | src/context/AudioContext.tsx:25-27 | `togglePlay` twice is the identity |
| Audio.SeekKeepsPlayAndDuration | src/context/AudioContext.tsx:29-32 | a seek sets progress and seek request to the time and changes neither the play flag nor the duration |
| Audio.FirstResetClearsSecondSeek | src/context/AudioContext.tsx:34-37 | after two seeks the first reset already clears the flag, with the second still scheduled |
| Audio.Transport.constructor | src/context/AudioContext.tsx:19-23 | the object starts in the initial state |
| Audio.Transport.TogglePlay | src/context/AudioContext.tsx:25-27 | flips the play flag only, unconditionally |
| Audio.Transport.SeekTo | src/context/AudioContext.tsx:29-38 | sets request, progress and seeking flag at once and schedules one reset |
| Audio.Transport.ResetTimerFires | src/context/AudioContext.tsx:35-37 | one scheduled reset fires and clears the seeking flag |
| Audio.Transport.SetIsPlaying | src/context/AudioContext.tsx:19-43 | overwrites only the play flag |
| Audio.Transport.SetProgress | src/context/AudioContext.tsx:20-47 | overwrites only the progress |
| Audio.Transport.SetDuration | src/context/AudioContext.tsx:21-48 | overwrites only the duration |
| Audio.SeekTwiceFirstResetFires | src/context/AudioContext.tsx:29-38 | two seeks then one timer expiry: not seeking, one reset still pending, progress at the second time |
| AlbumFilters.DefaultFilters | src/hooks/useAlbumFilters.ts:24-39 | empty search and lists, open ranges, no minimum rating, every tri-state off, sorted by date added, newest first |
| AlbumFilters.ResetFilters | src/hooks/useAlbumFilters.ts:319-321 | the result is the default record |
| AlbumFilters.ToggleSortDirection | src/hooks/useAlbumFilters.ts:312-317 | the direction changes and every other field is kept |
| AlbumFilters.ToggleTwice | src/hooks/useAlbumFilters.ts:312-317 | toggling the direction twice is the identity |
| AlbumFilters.FindChar | src/hooks/useAlbumFilters.ts:93 | the first position at or after k holding the character, -1 exactly when there is none |
| AlbumFilters.CodeFrom | src/hooks/useAlbumFilters.ts:93 | a found code is non-empty, holds no ')' and sits in the text between a '(' and a ')'; CodeFromMeaning adds that it is absent only when no such pair exists and otherwise is the leftmost one |
| AlbumFilters.CodeFromMeaning | src/hooks/useAlbumFilters.ts:93 | no code exactly when no '(' at or after `k` is followed, one or more characters later, by a ')' with none between; otherwise the code is the text inside the leftmost such pair |
| AlbumFilters.ConditionCode | src/hooks/useAlbumFilters.ts:93 | the match of `/\(([^)]+)\)/`: none exactly when the text has no '(' followed by a non-empty ')'-free run and a ')'; otherwise the run of the leftmost such match |
| AlbumFilters.ConditionCodeExamples | src/hooks/useAlbumFilters.ts:93-94 | "(VG)" gives "VG", "()(M)" passes over the empty parentheses to "M", and "VG" has no code |
| AlbumFilters.ConditionValues | src/hooks/useAlbumFilters.ts:175-178 | the album's condition codes are exactly the codes of its listings that have one |
| AlbumFilters.Passes | src/hooks/useAlbumFilters.ts:123-223 | the filter callback on one album; TriStateMeaning, InactivePasses, FilteredAppend and FilteredAlbumsSound state its behaviour |
| AlbumFilters.Filtered | src/hooks/useAlbumFilters.ts:123-223 | never longer than the input and a sub-multiset of it; an album is kept exactly when it is in the input and passes every criterion; when all pass, the input is returned unchanged; FilteredAppend adds that input order is kept |
| AlbumFilters.Keep | src/hooks/useAlbumFilters.ts:123 | `Array.prototype.filter`: a sub-multiset of the input, holding exactly the input's elements that pass, in input order |
| AlbumFilters.KeepAppend | src/hooks/useAlbumFilters.ts:123 | filtering a concatenation is concatenating the filtered halves |
| AlbumFilters.FilteredAppend | src/hooks/useAlbumFilters.ts:123-223 | the album filter works album by album: it distributes over concatenation, keeps nothing of an empty list and keeps a single album exactly when it passes |
| AlbumFilters.FilteredAlbums | src/hooks/useAlbumFilters.ts:122-257 | the `filteredAlbums` memo: filter, then sort by the callback; FilteredAlbumsSound and DefaultFiltersKeepAll state its contents and order |
| AlbumFilters.ComparisonAntisymmetric | src/hooks/useAlbumFilters.ts:226-251 | each field's comparison changes sign when its arguments are swapped |
| AlbumFilters.AlbumCmpAntisymmetric | src/hooks/useAlbumFilters.ts:226-254 | the sort callback is antisymmetric for every filter record |
| AlbumFilters.AlbumCmp | src/hooks/useAlbumFilters.ts:226-254 | the sort callback for a filter record; AlbumCmpAntisymmetric and DirectionFlipsSign state its sign laws |
| AlbumFilters.DirectionFlipsSign | src/hooks/useAlbumFilters.ts:253 | descending is the negation of ascending, so toggling the direction negates every comparison |
| AlbumFilters.FilteredAlbumsSound | src/hooks/useAlbumFilters.ts:122-257 | the shown albums are at most the input's count, exactly the passing input albums, and in comparator order |
| AlbumFilters.DefaultFiltersKeepAll | src/hooks/useAlbumFilters.ts:24-257 | under the default filters the result is a permutation of the input |
| AlbumFilters.AbsentValuesInRange | src/hooks/useAlbumFilters.ts:148-161 | an album without a year or without a median price is never cut by that range |
| AlbumFilters.TriStateMeaning | src/hooks/useAlbumFilters.ts:184-211 | for a passing album: audio true means at least one video and false means none; played true means some "played" interaction and false means none; liked-tracks false means no "liked" interaction names a track |
| AlbumFilters.ActiveCriteriaMeaning | src/hooks/useAlbumFilters.ts:323-338 | a criterion is listed exactly when it is switched on |
| AlbumFilters.CriterionAt | src/hooks/useAlbumFilters.ts:325-336 | the criterion the counter tests at position `i` is the one whose position is `i` |
| AlbumFilters.ActiveFromMeaning | src/hooks/useAlbumFilters.ts:323-338 | from position `i` on, a criterion is listed exactly when it comes at or after `i` and is switched on |
| AlbumFilters.CriterionAtRank | src/hooks/useAlbumFilters.ts:323-338 | each criterion is the one the counter tests at its own position |
| AlbumFilters.ActiveFromBound | src/hooks/useAlbumFilters.ts:323-338 | from position `i` on, at most one criterion per remaining position is listed |
| AlbumFilters.CountIf | src/hooks/useAlbumFilters.ts:325-336 | one counter line adds one exactly when the criterion it tests (the one at position `i` of the counter) is switched on |
| AlbumFilters.ActiveFilterCount | src/hooks/useAlbumFilters.ts:323-338 | the count equals the number of switched-on criteria |
| AlbumFilters.ActiveCountBounds | src/hooks/useAlbumFilters.ts:319-338 | the count is at most 12 and is 0 after a reset |
| AlbumFilters.NoActiveFilterPasses | src/hooks/useAlbumFilters.ts:123-223 | with no criterion on, the filter keeps every album and the result is a permutation |
| AlbumFilters.InactivePasses | src/hooks/useAlbumFilters.ts:123-223 | with no criterion switched on, an album passes every test |
| AlbumFilters.AddAllMeaning | src/hooks/useAlbumFilters.ts:86-88 | adding to an insertion-ordered set holds the old and new members, each once |
| AlbumFilters.CollectMeaning | src/hooks/useAlbumFilters.ts:85-96 | the collected values are exactly those of some album, without repeats |
| AlbumFilters.YearLowMeaning | src/hooks/useAlbumFilters.ts:98-100 | the least year is absent exactly when no album has a non-zero year, and otherwise is some album's year at most every other |
| AlbumFilters.YearHighMeaning | src/hooks/useAlbumFilters.ts:98-100 | the greatest year, likewise |
| AlbumFilters.PriceLowMeaning | src/hooks/useAlbumFilters.ts:103-105 | the least median price is absent exactly when no album has one, and otherwise is some album's price at most every other |
| AlbumFilters.PriceHighMeaning | src/hooks/useAlbumFilters.ts:103-105 | the greatest median price, likewise |
| AlbumFilters.PrefixStep | src/hooks/useAlbumFilters.ts:85-107 | each accumulator after one more album is its value before, extended by that album |
| AlbumFilters.AddEach | src/hooks/useAlbumFilters.ts:86-87 | the `forEach` pass yields the set with the values added |
| AlbumFilters.FilterOptionsOf | src/hooks/useAlbumFilters.ts:75-119 | the `filterOptions` memo; FilterOptionsMeaning, GenreOptions, StyleOptions, CountryOptions, ConditionOptions and RangeOptions state its contents |
| AlbumFilters.ComputeFilterOptions | src/hooks/useAlbumFilters.ts:75-119 | the loop computes the option record that `FilterOptionsOf` describes |
| AlbumFilters.DistinctOnce | src/hooks/useAlbumFilters.ts:110-113 | each value of a distinct list occurs once |
| AlbumFilters.RepeatCountsTwice | src/hooks/useAlbumFilters.ts:110-113 | a repeated value occurs at least twice |
| AlbumFilters.OnceDistinct | src/hooks/useAlbumFilters.ts:110-113 | a list whose values each occur once is distinct |
| AlbumFilters.StringCmpAntisymmetric | src/hooks/useAlbumFilters.ts:110-113 | the default string sort's comparison is antisymmetric |
| AlbumFilters.StringCmp | src/hooks/useAlbumFilters.ts:110-113 | the default `sort()` order on strings; StringCmpAntisymmetric and SortedOptions state what it gives |
| AlbumFilters.SortedOptions | src/hooks/useAlbumFilters.ts:110-113 | a sorted option list holds the same values, each once, in strictly increasing order |
| AlbumFilters.GenreOptions | src/hooks/useAlbumFilters.ts:86-110 | the genre options are every genre of some album, each once, in increasing order |
| AlbumFilters.StyleOptions | src/hooks/useAlbumFilters.ts:87-111 | the style options are every style of some album that lists styles, each once, in increasing order |
| AlbumFilters.CountriesCollected | src/hooks/useAlbumFilters.ts:88 | the collected countries are exactly the non-empty countries of the albums |
| AlbumFilters.CountryOptions | src/hooks/useAlbumFilters.ts:88-112 | the country options are every non-empty country of some album, each once, in increasing order |
| AlbumFilters.ConditionOptions | src/hooks/useAlbumFilters.ts:90-113 | the condition options are every condition code of some album's listings, each once, in increasing order |
| AlbumFilters.RangeOptions | src/hooks/useAlbumFilters.ts:98-117 | the year bounds enclose every non-zero year and default to 1950 and the current year; the price bounds enclose every median price and default to 0 and 100 |
| AlbumFilters.FilterOptionsMeaning | src/hooks/useAlbumFilters.ts:75-119 | the offered genres, styles, countries and condition codes are exactly those of some album, each once and strictly increasing; the year bounds enclose every non-zero year, 1950 and the current year when there is none; the price bounds enclose every median price, 0 and 100 when there is none |
| Sorting.Insert | src/hooks/useAlbumFilters.ts:226 | one element longer, with exactly the old elements plus the new one |
| Sorting.Sort | src/hooks/useAlbumFilters.ts:226 | a permutation of the input: same length, same multiset of elements |
| Sorting.InsertOrdered | src/hooks/useAlbumFilters.ts:226 | with an antisymmetric comparator, inserting into an ordered list keeps it ordered |
| Sorting.SortOrdered | src/hooks/useAlbumFilters.ts:226 | with an antisymmetric comparator, every element compares at most equal to its successor |
| Sorting.SortSameMembers | src/hooks/useAlbumFilters.ts:226 | an element is in the sorted list exactly when it is in the input |
| DataUpdates.FirstWhere | src/context/DataContext.tsx:80-109 | `findIndex`: the first position satisfying the test, -1 exactly when none does |
| DataUpdates.RemoveFirstWhere | src/context/DataContext.tsx:80-113 | the list without its first element that passes the test; RemoveFirstIsSplice states it as the splice at `findIndex` |
| DataUpdates.RemoveFirstIsSplice | src/context/DataContext.tsx:80-113 | removing the first match is splicing out the index `findIndex` reports, and nothing changes when there is none |
| DataUpdates.EditVideoVote | src/context/DataContext.tsx:103-125 | the copy, `splice` and `push` give the list with the first earlier vote on that video removed and the answered vote, if any, appended |
| DataUpdates.VoteCountAppend | src/context/DataContext.tsx:116-121 | votes on a video in a concatenation add up |
| DataUpdates.RemoveVoteCount | src/context/DataContext.tsx:106-113 | removing the first vote on v lowers v's count by one when it had one and leaves every other video's count |
| DataUpdates.VoteCountAfter | src/context/DataContext.tsx:101-130 | with at most one vote on v before, there is exactly one after when the call answered a vote and none otherwise; votes on other videos are untouched |
| DataUpdates.EditAlbumLike | src/context/DataContext.tsx:71-83 | the copy then `push` or `splice` gives the list with an album-level "liked" appended on a like, or the first one removed on an unlike |
| DataUpdates.LikeThenUnlike | src/context/DataContext.tsx:73-83 | a like followed by an unlike restores a list that held no album-level like |
| DataUpdates.MapMatching | src/context/DataContext.tsx:68-88 | same count; albums with the id are transformed, the others kept |
| DataUpdates.ToggleLikeAlbums | src/context/DataContext.tsx:68-88 | same count; albums with another id unchanged; in albums with the id only the interaction list changes, to the toggled list |
| DataUpdates.VideoVoteAlbums | src/context/DataContext.tsx:101-130 | same count; albums with another id unchanged; in the matching album only the interaction list changes, by the vote edit |
| DataUpdates.RetitleVideos | src/context/DataContext.tsx:154-159 | same videos in the same order with the same ids; exactly the videos with the id get the new title |
| DataUpdates.UpdateVideoTitleAlbums | src/context/DataContext.tsx:151-164 | same albums and count; in each album with that id, exactly the videos with that id get the new title (RetitleVideos), keeping video count and id order; albums with another id or without videos are untouched |
| DataUpdates.UpdateVideoTitleIdempotent | src/context/DataContext.tsx:151-164 | applying the same title correction twice equals applying it once |
| DataUpdates.NeedsUpdate | src/context/DataContext.tsx:30 | true for an empty list, true when the first album's have count, want count and rating are all 0, false when any of them is not |
| DataUpdates.DataProvider.constructor | src/context/DataContext.tsx:43 | the provider holds the loaded list |
| DataUpdates.DataProvider.ToggleLike | src/context/DataContext.tsx:57-94 | with no album of that id neither list nor store changes; otherwise the store's membership of the id flips, and the albums get the like toggled per the store's answer when the database write succeeds, or stay as they were when it rejects (the catch) |
| DataUpdates.DataProvider.ToggleVideoLike | src/context/DataContext.tsx:96-135 | a rejected vote call (the catch) leaves the list unchanged; an answered one makes the list the vote update of the old list with that answer. The shipped mock service has no `toggleVideoLike` (src/services/api.ts:7-71), so in the program as shipped every call takes the rejected path |
| DataUpdates.DataProvider.UpdateVideoTitle | src/context/DataContext.tsx:151-164 | the list becomes the title correction of the old list: in albums with that id exactly the videos with that id are retitled, nothing else changes |
| MockApi.WithoutLikes | src/services/api.ts:27 | no longer than the list; holds exactly its non-"liked" entries |
| MockApi.WithoutLikesAppend | src/services/api.ts:27 | the filter distributes over concatenation, so kept entries keep their order |
| MockApi.WithoutLikesKeepsOthers | src/services/api.ts:27 | a list without "liked" entries is returned unchanged |
| MockApi.Projected | src/services/api.ts:23-41 | only the interaction list changes; a liked album gets exactly one "liked" appended; any other album keeps exactly its non-"liked" entries |
| MockApi.Flipped | src/services/api.ts:46-52 | the id's membership flips and every other id's stays |
| MockApi.FlippedTwice | src/services/api.ts:44-53 | flipping twice restores the set |
| MockApi.MockApiService.constructor | src/services/api.ts:8-18 | the store starts from the mock catalog, liking exactly the albums that have some "liked" interaction |
| MockApi.MockApiService.GetAlbums | src/services/api.ts:20-29 | same count and order, each album shown with its liked status applied |
| MockApi.MockApiService.GetAlbum | src/services/api.ts:31-42 | absent exactly when no album has the id; otherwise the projection `getAlbums` gives for such an album |
| MockApi.MockApiService.ToggleLike | src/services/api.ts:44-53 | answers true exactly when the id was not liked, and flips only that id |
| MockApi.LikedAfterToggle | src/services/api.ts:11-53 | after liking an album with no interactions, `getAlbum` shows it with exactly one "liked" marker |
| MockApi.ToggleTwiceRestores | src/services/api.ts:44-53 | two toggles answer "liked" then "not liked" (or the reverse) and restore the set |
| MockApi.ScrapeUrl | src/services/api.ts:55-61 | accepted exactly when the URL contains "discogs.com", with the started message and a job id; otherwise the invalid-URL message and no job |
| MockApi.ScrapeUrlExamples | src/services/api.ts:57-60 | a discogs.com seller URL is accepted and an example.org URL is refused |
| FilterWidgets.Cycle | src/components/filters/FilterBar.tsx:286-290 | unset goes to "yes", "yes" to "no", "no" to unset; never stays put |
| FilterWidgets.CycleThrice | src/components/filters/FilterBar.tsx:286-290 | three presses return to the start and two never do |
| FilterWidgets.RemoveAll | src/components/filters/FilterBar.tsx:89 | no longer than the list; holds exactly the entries other than the option |
| FilterWidgets.RemoveAllAppend | src/components/filters/FilterBar.tsx:89 | the filter distributes over concatenation, keeping order |
| FilterWidgets.RemoveAbsent | src/components/filters/FilterBar.tsx:89 | filtering out an absent option changes nothing |
| FilterWidgets.ToggleOption | src/components/filters/FilterBar.tsx:87-93 | a selected option disappears entirely with every other entry kept; an unselected one is appended at the end |
| FilterWidgets.ToggleAbsentTwice | src/components/filters/FilterBar.tsx:87-93 | selecting then deselecting an absent option restores the list |
| FilterWidgets.DeselectKeepsOrder | src/components/filters/FilterBar.tsx:87-93 | deselecting keeps the other entries in their relative order |
| FilterWidgets.HasValue | src/components/filters/FilterBar.tsx:189 | true exactly when either bound is set |
| FilterWidgets.HandleClear | src/components/filters/FilterBar.tsx:198-202 | both text inputs are emptied and the emitted range has no value |
| SellerUrl.NonEmpty | src/services/scraper.ts:52 | `filter(Boolean)`: no longer than the input; exactly its non-empty pieces |
| SellerUrl.Segments | src/services/scraper.ts:52 | every segment is non-empty and holds no '/'; SegmentsOfJoin and SegmentsOfPathname add that they are the path's '/'-separated pieces in order |
| SellerUrl.SegmentsOfJoin | src/services/scraper.ts:52 | round trip: segments that are non-empty and free of '/' come back from the path joining them with '/' |
| SellerUrl.SegmentsOfPathname | src/services/scraper.ts:51-52 | the same for a `pathname`, which starts with '/' |
| SellerUrl.IndexOfSegment | src/services/scraper.ts:55-61 | the first position holding the keyword, -1 exactly when it is absent |
| SellerUrl.AfterKeyword | src/services/scraper.ts:55-64 | present exactly when the first occurrence of the keyword has a following non-empty segment, and then it is that segment |
| SellerUrl.SellerFromSegments | src/services/scraper.ts:55-66 | the segment after "seller" when there is one; only otherwise the one after "user"; a result is always one of the segments |
| SellerUrl.ExtractSellerFromUrl | src/services/scraper.ts:49-70 | an unparseable URL gives nothing; a result is a non-empty segment without '/'; "seller" takes precedence over "user" |
| SellerUrl.NoKeywordNoSeller | src/services/scraper.ts:55-66 | with neither keyword among the segments the result is null |
| SellerUrl.KeywordLastNoMatch | src/services/scraper.ts:56-62 | a keyword that is the last segment names nobody |
| SellerUrl.EmptyPieceIgnored | src/services/scraper.ts:52 | an empty piece (from "//" or a trailing '/') is dropped without disturbing its neighbours |
| SellerUrl.SellerExamples | src/services/scraper.ts:45-66 | the seller-profile and user-collection layouts, "seller" winning over an earlier "user", and a trailing keyword giving null |
| ReleaseFields.ArtistName | src-tauri/src/scraper/db.rs:147-149 | the first listed artist's name; the empty string for a release without artists |
| ReleaseFields.LabelName | src-tauri/src/scraper/db.rs:151 | present exactly when a label is listed, and then the first label's name |
| ReleaseFields.CatalogNumber | src-tauri/src/scraper/db.rs:152-154 | the first label's catalog number when it has one; otherwise the release-level catalog number |
| ReleaseFields.FormatString | src-tauri/src/scraper/db.rs:156-165 | the first format's name followed by its descriptions, joined with ", "; the plain `format` field when no format is listed |
| ReleaseFields.FormatExample | src-tauri/src/scraper/db.rs:159-163 | "Vinyl" with descriptions "LP", "Album" reads "Vinyl, LP, Album" |
| ReleaseFields.FirstPrimary | src-tauri/src/scraper/db.rs:170 | the first image of type "primary", or -1 exactly when none is |
| ReleaseFields.CoverImage | src-tauri/src/scraper/db.rs:168-172 | no image only for an empty list; the first primary image wins, else the first image |
| ReleaseFields.CoverImageUrl | src-tauri/src/scraper/db.rs:167-173 | nothing without images; otherwise the cover image's `uri`, falling back to its `resource_url` |
| ReleaseFields.ParseU32 | src-tauri/src/scraper/db.rs:178 | a parsed year always fits in a `u32`; "" and a lone "+" do not parse |
| ReleaseFields.ToDecimal | src-tauri/src/scraper/db.rs:178 | a non-empty string of decimal digits |
| ReleaseFields.DecimalValue | src-tauri/src/scraper/db.rs:178 | the digits of `n` denote `n` |
| ReleaseFields.ParseDecimal | src-tauri/src/scraper/db.rs:178 | parsing the decimal form of any `u32` gives it back (round trip) |
| ReleaseFields.FirstPiece | src-tauri/src/scraper/db.rs:177 | the first piece of a split is everything before the first separator |
| ReleaseFields.Year | src-tauri/src/scraper/db.rs:175-179 | the `year` field when present; else the text of `released` before the first '-' read as a `u32`; nothing without either |
| ReleaseFields.YearFromReleaseDate | src-tauri/src/scraper/db.rs:175-179 | a release date "YYYY-…" without a `year` field gives YYYY |
| ReleaseFields.Side | src-tauri/src/scraper/db.rs:332 | nothing exactly for an empty position; otherwise the position's first character |
| ReleaseFields.SaveTracks | src-tauri/src/scraper/db.rs:331-348 | one row per track, in tracklist order, each with its side |
| ReleaseFields.VideoId | src-tauri/src/scraper/db.rs:355-359 | the id never contains '&' or "watch?v="; a URI without "watch?v=" gives the empty id; VideoIdMeaning pins the id when the key is present |
| ReleaseFields.VideoIdMeaning | src-tauri/src/scraper/db.rs:355-359 | with a "watch?v=" in the URI, the id is the text starting right after the first one and running to the end, a '&' or the next "watch?v=", whichever comes first |
| ReleaseFields.VideoIdOfWatchUrl | src-tauri/src/scraper/db.rs:355-359 | `<prefix>watch?v=<id>&<rest>` gives `<id>` when the prefix and the id hold no '?' and the id no '&' |
| ReleaseFields.VideoIdOfPlainWatchUrl | src-tauri/src/scraper/db.rs:355-359 | `<prefix>watch?v=<id>` gives `<id>` when the prefix holds no '?' and the id neither '&' nor '?' |
| ReleaseFields.VideoRowsFrom | src-tauri/src/scraper/db.rs:354-384 | the rows `save_videos` stores; VideoRowsSound, VideoRowsAbove, VideoRowsOrdered and VideoRowsComplete state their contents and order |
| ReleaseFields.VideoRowsSound | src-tauri/src/scraper/db.rs:354-384 | each stored row names the video at its order index, with that video's non-empty id |
| ReleaseFields.VideoRowsAbove | src-tauri/src/scraper/db.rs:354-378 | every row's order index is at least the starting index |
| ReleaseFields.VideoRowsOrdered | src-tauri/src/scraper/db.rs:354-378 | rows follow the video list: order indices strictly increase |
| ReleaseFields.VideoRowsComplete | src-tauri/src/scraper/db.rs:354-363 | every video with a non-empty id gets its row, at its own index; skipped videos keep their index |
| ReleaseFields.SaveVideos | src-tauri/src/scraper/db.rs:353-389 | the loop stores exactly the rows of the recursive definition, whose soundness, order and completeness are the lemmas above |
| ReleaseFields.IsAvailable | src-tauri/src/scraper/db.rs:118 | available exactly when the status reads "For Sale" |
| ReleaseFields.AvailabilityExamples | src-tauri/src/scraper/db.rs:118 | the comparison is exact: "Sold" and "for sale" are unavailable |
| Inventory.Collected | src-tauri/src/scraper/inventory.rs:17-19 | no pages collected, no ids; otherwise the listings' release ids page after page |
| Inventory.Truncated | src-tauri/src/scraper/inventory.rs:22-27 | the result is a prefix of the ids, no longer than the limit; without a limit the ids are kept whole |
| Inventory.FetchAllInventory | src-tauri/src/scraper/inventory.rs:4-38 | the page loop returns exactly what the recursive definition of the fetch gives |
| Inventory.FetchFrom | src-tauri/src/scraper/inventory.rs:13-35 | the page loop from a given page and ids, as recursion; FetchFromOk and FetchFromErr state its outcomes |
| Inventory.FetchAll | src-tauri/src/scraper/inventory.rs:4-38 | `get_all_inventory` as recursion from page 1; FetchAllOk and FetchAllErr state its outcomes |
| Inventory.FetchFromOk | src-tauri/src/scraper/inventory.rs:13-35 | a successful run from a reached page ends at a later stopping page, with the ids of all pages up to it, cut to the limit |
| Inventory.FetchFromErr | src-tauri/src/scraper/inventory.rs:14 | a failed run from a reached page is the error of a later page that the loop reached |
| Inventory.FetchAllOk | src-tauri/src/scraper/inventory.rs:13-37 | success returns the ids of pages 1 to `p` in order, cut to the limit, where `p` is the first page at which the limit or the reported last page is reached |
| Inventory.FetchAllErr | src-tauri/src/scraper/inventory.rs:14 | failure is the error of the first failing page; every page before it answered and continued |
| Inventory.LimitBounds | src-tauri/src/scraper/inventory.rs:22-27 | with a limit, never more ids than the limit |
| Inventory.FirstPageError | src-tauri/src/scraper/inventory.rs:14 | an error on page 1 is the answer, whatever the other pages hold |
| Inventory.SinglePageWhenNoneReported | src-tauri/src/scraper/inventory.rs:10-30 | page 1 is always requested, so a page reporting 0 pages still yields its ids |
| Inventory.FixedPageCount | src-tauri/src/scraper/inventory.rs:29-34 | without a limit, when every page reports `n` pages, the ids of pages 1 to `n` (at least page 1) |
| Inventory.FixedPagesFrom | src-tauri/src/scraper/inventory.rs:29-34 | the same from any page up to `n`, given the ids gathered before it |
| Runner.ScrapeJob.constructor | src-tauri/src/scraper/runner.rs:78-79 | a new job starts with the flag cleared |
| Runner.ScrapeJob.Cancel | src-tauri/src/scraper/runner.rs:86-88 | sets the flag; nothing clears it |
| Runner.ScrapeJob.CheckCancelled | src-tauri/src/scraper/runner.rs:90-96 | fails exactly when the flag is set, and then with `Cancelled` |
| Runner.ScrapeJob.CancelThenCheck | src-tauri/src/scraper/runner.rs:86-96 | after `cancel` the next `check_cancelled` fails with `Cancelled` |
| Runner.ScrapeJob.Run | src-tauri/src/scraper/runner.rs:98-292 | the two-phase loop returns exactly what the recursive definition of a run gives |
| Runner.BatchSize | src-tauri/src/scraper/runner.rs:99 | the given batch size, or 10 when none is given; positive whenever the given one is |
| Runner.ScrapeJob.InventoryPhase | src-tauri/src/scraper/runner.rs:114-204 | the page loop returns exactly what the recursive definition of phase one gives |
| Runner.ScrapeJob.ProcessListings | src-tauri/src/scraper/runner.rs:137-190 | one page's listing loop returns exactly what its recursive definition gives |
| Runner.ScrapeJob.EnrichmentPhase | src-tauri/src/scraper/runner.rs:217-276 | the batch loop returns exactly what the recursive definition of phase two gives |
| Runner.ScrapeJob.EnrichBatch | src-tauri/src/scraper/runner.rs:228-262 | one batch's loop returns exactly what the recursive definition of a batch gives |
| Runner.AddedCount | src-tauri/src/scraper/runner.rs:143-166 | the number of stored listings is at most the number of listings |
| Runner.RecordKeepsConsistent | src-tauri/src/scraper/runner.rs:143-166 | recording one more listing, counting it and counting it as added exactly when it is new and saved, keeps the counters consistent |
| Runner.ListingsCounts | src-tauri/src/scraper/runner.rs:137-190 | a page's loop appends a prefix of the page's ids to those recorded, counts each one, counts the saved new albums, and keeps `total_items` |
| Runner.PagesCounts | src-tauri/src/scraper/runner.rs:120-204 | from any page, the recorded ids only grow, the counters stay consistent, and `total_items` is set by page 1 alone |
| Runner.InventorySpec | src-tauri/src/scraper/runner.rs:114-204 | phase one, recursively over pages; InventoryCounts, InventoryLimit, InventoryMatchesFetchAll and ZeroLimitTakesOne state its behaviour |
| Runner.InventoryCounts | src-tauri/src/scraper/runner.rs:117-204 | phase one's `processed` is the number of recorded ids, `albums_added` the saved new albums among them (never more), `total_items` page 1's `items` |
| Runner.ListingsLimit | src-tauri/src/scraper/runner.rs:171-189 | within a page, a limit of `m` lets at most `m` listings through, one when `m` is 0 |
| Runner.PagesLimit | src-tauri/src/scraper/runner.rs:185-201 | the same over all pages from any page |
| Runner.InventoryLimit | src-tauri/src/scraper/runner.rs:185-197 | phase one processes at most `m` listings, or one when `m` is 0 |
| Runner.ListingsQuiet | src-tauri/src/scraper/runner.rs:137-190 | without cancellation and failing lookups, a page's loop records the ids so far plus the page's, cut to the limit |
| Runner.PagesQuiet | src-tauri/src/scraper/runner.rs:120-204 | the same from any page: phase one fails exactly when the inventory fetch does, and otherwise records the fetch's ids |
| Runner.InventoryMatchesFetchAll | src-tauri/src/scraper/runner.rs:120-204 | without cancellation and failing lookups, and for any limit but 0, phase one records exactly the ids `fetch_all_inventory` returns and fails exactly when it does, with the same error |
| Runner.ZeroLimitTakesOne | src-tauri/src/scraper/runner.rs:171-189 | with limit 0 phase one still records the first listing, while `fetch_all_inventory` returns none |
| Runner.BatchRanges | src-tauri/src/scraper/runner.rs:220-224 | the `step_by(batch_size)` batches of the id list; BatchRangesPartition states that they partition it in order |
| Runner.BatchRangesFrom | src-tauri/src/scraper/runner.rs:220-223 | every batch ends inside the id list |
| Runner.BatchRangesFromEnds | src-tauri/src/scraper/runner.rs:220-223 | the batches from `start` are none exactly when `start` reaches the end; otherwise they start at `start` and end at the end |
| Runner.BatchRangesFromSizes | src-tauri/src/scraper/runner.rs:220-223 | every batch holds between 1 and `batch_size` ids |
| Runner.BatchRangesFromConsecutive | src-tauri/src/scraper/runner.rs:220-223 | each batch but the last holds exactly `batch_size` ids and ends where the next starts |
| Runner.BatchRangesPartition | src-tauri/src/scraper/runner.rs:220-224 | the batches partition the id list in order: none for no ids, the first from 0, the last to the end, no gaps, sizes 1 to `batch_size` |
| Runner.UpdateCount | src-tauri/src/scraper/runner.rs:232-237 | the number of enriched ids is at most the number of ids looked at |
| Runner.ReleasesOk | src-tauri/src/scraper/runner.rs:228-262 | a batch's loop that succeeds counts every id of the batch and the enriched ones among them |
| Runner.BatchesOk | src-tauri/src/scraper/runner.rs:220-276 | the batches from any start that succeed count every remaining id and the enriched ones |
| Runner.EnrichmentSpec | src-tauri/src/scraper/runner.rs:217-276 | phase two, recursively over batches; EnrichmentCounts and EnrichmentQuiet state its behaviour |
| Runner.EnrichmentCounts | src-tauri/src/scraper/runner.rs:217-276 | phase two processes every recorded id once; `albums_updated` counts those that exist and are fetched and updated, never more |
| Runner.ReleasesQuiet | src-tauri/src/scraper/runner.rs:228-262 | without cancellation and failing lookups, a batch never fails: fetch and update failures are only reported |
| Runner.BatchesQuiet | src-tauri/src/scraper/runner.rs:220-276 | the same for any sequence of batches inside the list |
| Runner.EnrichmentQuiet | src-tauri/src/scraper/runner.rs:217-276 | without cancellation and failing lookups, phase two succeeds |
| Runner.RunSpec | src-tauri/src/scraper/runner.rs:98-292 | the whole run: phase one, then phase two, then the result record; RunResult and CancelledRunFails state its behaviour |
| Runner.RunResult | src-tauri/src/scraper/runner.rs:278-282 | a successful run reports the saved new albums and the enriched ids among those recorded (each at most their number), page 1's `items`, and at most `m` ids for a limit `m` (one for 0) |
| Runner.CancelledRunFails | src-tauri/src/scraper/runner.rs:120-121 | a job cancelled before `run` fails with `Cancelled` before any request |
| MarkdownSections.CleanTitleSpec | docs/discogs-api/split_existing_docs.py:44-46 | the title is the stripped heading text, or that text less a final "__" and the whitespace before it; empty only for blank text; never starts or ends with whitespace |
| MarkdownSections.CleanTitle | docs/discogs-api/split_existing_docs.py:44-46 | the title of a heading line; CleanTitleSpec states it |
| MarkdownSections.CleanTitleExamples | docs/discogs-api/split_existing_docs.py:44-46 | "# Database __" is titled "Database"; "Rate Limiting" keeps its name |
| MarkdownSections.NextHeading | docs/discogs-api/split_existing_docs.py:36 | the first h1 line at or after a position, with none skipped; the end when there is none |
| MarkdownSections.Introduction | docs/discogs-api/split_existing_docs.py:52-57 | a heading-free block yields at most one section |
| MarkdownSections.NextHeadingShift | docs/discogs-api/split_existing_docs.py:34-36 | looking for a heading from line 1 is looking from line 0 of the rest |
| MarkdownSections.Flush | docs/discogs-api/split_existing_docs.py:38-41 | saving the open section, as before a heading and after the last line (lines 59-63); FlushKeeps states its behaviour |
| MarkdownSections.Step | docs/discogs-api/split_existing_docs.py:36-57 | one pass of the line loop; FoldIdleSkips, FoldIdleOpens, FoldHeading and FoldOpen state its cases |
| MarkdownSections.Fold | docs/discogs-api/split_existing_docs.py:34-63 | the line loop and the final save; FoldIdle and FoldIsSections state that it yields the reference sections |
| MarkdownSections.FlushKeeps | docs/discogs-api/split_existing_docs.py:38-41 | an open section whose lines hold text is always saved, with its lines joined by '\n' |
| MarkdownSections.FoldIdle | docs/discogs-api/split_existing_docs.py:48-57 | from a state with no section open, the rest of the loop adds the reference sections of the remaining lines |
| MarkdownSections.FoldIdleSkips | docs/discogs-api/split_existing_docs.py:52-53 | with no section open, a line that opens nothing is skipped and the rest of the loop adds the reference sections of the remaining lines |
| MarkdownSections.FoldIdleOpens | docs/discogs-api/split_existing_docs.py:54-57 | with no section open, the first non-blank line opens an "Introduction" and the rest of the loop adds the reference sections |
| MarkdownSections.SectionsAtHeading | docs/discogs-api/split_existing_docs.py:34-63 | lines that open with a heading have no pre-heading block and so no "Introduction": their sections are those of the headed blocks |
| MarkdownSections.SectionsShift | docs/discogs-api/split_existing_docs.py:34-57 | for lines that do not open with a heading, the first heading of the tail is the first heading of the whole, one position earlier, and the pre-heading block and the headed lines split the same way |
| MarkdownSections.FoldHeading | docs/discogs-api/split_existing_docs.py:36-47 | after a heading line, the rest of the loop adds the reference sections of the lines from that heading on |
| MarkdownSections.FoldOpen | docs/discogs-api/split_existing_docs.py:48-51 | an open section with text takes every line up to the next heading, then the reference sections follow |
| MarkdownSections.FoldIsSections | docs/discogs-api/split_existing_docs.py:28-63 | the loop, from its initial state, yields exactly the reference sections: pre-heading block, then one block per heading |
| MarkdownSections.Sections | docs/discogs-api/split_existing_docs.py:28-63 | the reference sections: the pre-heading block, then one block per heading; FoldIsSections, SectionsAppend and SectionsWellFormed state its properties |
| MarkdownSections.SplitLines | docs/discogs-api/split_existing_docs.py:34-63 | the splitting loop returns exactly the reference sections of the lines |
| MarkdownSections.IntroductionWellFormed | docs/discogs-api/split_existing_docs.py:52-57 | an "Introduction" has a title and non-blank content opening with an h1 line |
| MarkdownSections.IntroductionShape | docs/discogs-api/split_existing_docs.py:55-57 | an "Introduction" section's content starts with the line "# Introduction" |
| MarkdownSections.HeadedWellFormed | docs/discogs-api/split_existing_docs.py:36-51 | every section of a block of headed lines has a title and non-blank content opening with an h1 line |
| MarkdownSections.TitledWellFormed | docs/discogs-api/split_existing_docs.py:36-47 | a titled section built from lines that open with a heading has non-blank content opening with an h1 line |
| MarkdownSections.SectionsWellFormed | docs/discogs-api/split_existing_docs.py:38-41 | every section has a non-empty title and opens with an h1 line, so the blank-content test never drops one |
| MarkdownSections.HeadedAppend | docs/discogs-api/split_existing_docs.py:36-47 | cutting headed lines at a heading, the sections of the halves are concatenated |
| MarkdownSections.NextHeadingPrefix | docs/discogs-api/split_existing_docs.py:36 | before a part that opens at a heading, the next-heading search stays in the first part |
| MarkdownSections.SectionsAppend | docs/discogs-api/split_existing_docs.py:34-63 | sections keep document order: a document cut just before a heading yields the sections of its first part, then those of the second |
| MarkdownSections.TitledHeadingOpensSection | docs/discogs-api/split_existing_docs.py:43-51 | a titled heading with no heading after it yields one section of that title whose content is the whole block, heading included |
| MarkdownSections.NextHeadingNone | docs/discogs-api/split_existing_docs.py:36 | with no heading from a position on, the search reaches the end |
| MarkdownSections.IntroductionStartsAtFirstOpener | docs/discogs-api/split_existing_docs.py:52-57 | before the first heading, the "Introduction" starts at the first non-blank line, with the two header lines before it; earlier lines are dropped |
| MarkdownSections.BlankPreambleDropped | docs/discogs-api/split_existing_docs.py:52 | a pre-heading block of blank lines yields no section |
| MarkdownSections.SourceLineBeforeHeading | docs/discogs-api/scrape_discogs_docs.py:293 | a "Source:" line before the first heading is dropped by `split_markdown_file` but opens an "Introduction" in `split_markdown_by_h1` |
| MarkdownSections.RemoveSpecial | docs/discogs-api/split_existing_docs.py:15 | only characters of `[\w\s-]` remain, and a string of them is unchanged |
| MarkdownSections.TrimStartShorter | docs/discogs-api/split_existing_docs.py:16 | trimming a run that opens the string drops at least one character |
| MarkdownSections.CollapseRuns | docs/discogs-api/split_existing_docs.py:16 | `re.sub(r'[-\s]+', '-', …)`; CollapseRunsSpec, CollapseSafe, CollapseKeepsWord, CollapseSpaceExample and CollapseExample state its behaviour |
| MarkdownSections.CollapseRunsSpec | docs/discogs-api/split_existing_docs.py:16 | after collapsing, no whitespace and no "--" remain, a leading dash marks a leading dash or space, and kept characters give file-name characters |
| MarkdownSections.SanitizeSafe | docs/discogs-api/split_existing_docs.py:12-17 | the sanitized name holds only lower-case word characters and '-', with no dash at either end and no "--" |
| MarkdownSections.SanitizeFilename | docs/discogs-api/split_existing_docs.py:12-17 | `sanitize_filename`; SanitizeSafe and SanitizeIdempotent state what it gives |
| MarkdownSections.StripKeepsSafe | docs/discogs-api/split_existing_docs.py:17 | stripping dashes from a run-free lower-case name leaves a safe name |
| MarkdownSections.LowerKeepsNameChars | docs/discogs-api/split_existing_docs.py:17 | lower-casing keeps file-name characters and leaves no upper-case letter |
| MarkdownSections.CollapseSafe | docs/discogs-api/split_existing_docs.py:16 | on a safe name the collapse changes nothing |
| MarkdownSections.LowerSafe | docs/discogs-api/split_existing_docs.py:17 | lower-casing a name without upper-case letters changes nothing |
| MarkdownSections.SanitizeIdempotent | docs/discogs-api/split_existing_docs.py:12-17 | sanitizing a sanitized name gives it back |
| MarkdownSections.OutputName | docs/discogs-api/split_existing_docs.py:73-75 | never empty: the sanitized title when there is one, else "untitled" |
| MarkdownSections.OutputNameSafe | docs/discogs-api/split_existing_docs.py:73-77 | every saved name is safe and non-empty and holds neither '/' nor '.' |
| MarkdownSections.CollapseKeepsWord | docs/discogs-api/split_existing_docs.py:16 | a run without dashes or whitespace passes through the collapse unchanged |
| MarkdownSections.CollapseSpaceExample | docs/discogs-api/split_existing_docs.py:16 | " Id" collapses to "-Id" |
| MarkdownSections.CollapseExample | docs/discogs-api/split_existing_docs.py:16 | "My Id" collapses to "My-Id" |
| MarkdownSections.RemoveSpecialExamples | docs/discogs-api/split_existing_docs.py:15 | "My Id" is kept whole; "?!" is removed entirely |
| MarkdownSections.LowerStripExample | docs/discogs-api/split_existing_docs.py:17 | "My-Id" lowers to "my-id" with no dash to strip |
| MarkdownSections.SanitizeExamples | docs/discogs-api/split_existing_docs.py:73-75 | "My Id" is saved as "my-id"; "?!" as "untitled" |
| MarkdownSections.HeadingHasText | docs/discogs-api/split_existing_docs.py:36 | a heading line is never blank |
| MarkdownSections.Regroup | docs/discogs-api/split_existing_docs.py:41 | appending sections is associative |
| ScrapeDocs.JoinSnoc | docs/discogs-api/scrape_discogs_docs.py:188-193 | joining one more part adds the separator and that part |
| ScrapeDocs.LastSegmentExtension | docs/discogs-api/scrape_discogs_docs.py:196-197 | a path ends in ".md" exactly when its last segment does |
| ScrapeDocs.SplitAtSeparator | docs/discogs-api/scrape_discogs_docs.py:188 | a path holding '/' splits into at least two segments |
| ScrapeDocs.JoinLast | docs/discogs-api/scrape_discogs_docs.py:188-193 | a join of two or more parts is the join of all but the last, the separator, and the last |
| ScrapeDocs.WithMdAfterDir | docs/discogs-api/scrape_discogs_docs.py:196-197 | extending the last segment of a path with ".md" extends the path |
| ScrapeDocs.LastPartWithMd | docs/discogs-api/scrape_discogs_docs.py:188-193 | giving the last of two or more joined segments ".md" gives the whole path ".md" |
| ScrapeDocs.SegmentsWithMd | docs/discogs-api/scrape_discogs_docs.py:188-193 | the segment-wise branch equals adding ".md" to the whole path when it lacks one |
| ScrapeDocs.UrlToFilepathSpec | docs/discogs-api/scrape_discogs_docs.py:171-199 | after a leading "/developers" is dropped, "" and "/" map to "index.md", anything else to itself without outer slashes, with ".md" added unless present |
| ScrapeDocs.UrlToFilepath | docs/discogs-api/scrape_discogs_docs.py:171-199 | `url_to_filepath`; UrlToFilepathSpec, UrlEndsWithMd and UrlKeepsExtension state what it gives |
| ScrapeDocs.UrlEndsWithMd | docs/discogs-api/scrape_discogs_docs.py:171-199 | every produced file path ends in ".md" |
| ScrapeDocs.UrlKeepsExtension | docs/discogs-api/scrape_discogs_docs.py:196-199 | an existing ".md" is never doubled |
| ScrapeDocs.UrlIndex | docs/discogs-api/scrape_discogs_docs.py:177-182 | "/developers" and "/developers/" map to "index.md" |
| ScrapeDocs.UrlPrefixNotSegment | docs/discogs-api/scrape_discogs_docs.py:177-178 | the prefix test is on characters: "/developersfoo" maps to "foo.md" |
| ScrapeDocs.SplitMarkdownFile | docs/discogs-api/scrape_discogs_docs.py:267-306 | the splitter's sections, with "Source:" lines before the first heading dropped |
| SplitDocs.PathJoin | docs/discogs-api/split_existing_docs.py:77 | an absolute name replaces the directory; otherwise the directory with one separator, then the name |
| SplitDocs.OutputPathInDir | docs/discogs-api/split_existing_docs.py:73-77 | every output path is the directory prefix followed by a '/'-free name ending in ".md" |
| SplitDocs.OutputPath | docs/discogs-api/split_existing_docs.py:73-77 | the path a section is saved to; OutputPathInDir and SameFileIffSameName state its shape |
| SplitDocs.SameFileIffSameName | docs/discogs-api/split_existing_docs.py:73-77 | two sections go to the same file exactly when their titles sanitize to the same name |
| SplitDocs.SavedCount | docs/discogs-api/split_existing_docs.py:88 | never more saved sections than attempted |
| SplitDocs.PlannedWrites | docs/discogs-api/split_existing_docs.py:71-85 | one write per section, in order, of its content to its output path |
| SplitDocs.DiskKeys | docs/discogs-api/split_existing_docs.py:84-85 | a path is on disk exactly when some successful write went to it |
| SplitDocs.DiskHoldsLastWrite | docs/discogs-api/split_existing_docs.py:84-85 | a file holds the content of the last successful write to its path: a later section with the same name overwrites an earlier one |
| SplitDocs.DiskSize | docs/discogs-api/split_existing_docs.py:84-88 | the run leaves at most as many files as it saved sections |
| SplitDocs.WriteSections | docs/discogs-api/split_existing_docs.py:68-91 | the files left are those of the planned writes in order; `scraped_count` counts successes, and successes plus failures are the sections |
| SplitDocs.SplitMarkdownByH1 | docs/discogs-api/split_existing_docs.py:19-91 | the sections are the splitter's, "Source:" lines kept, and the files and counts are those of writing them in order |
| SplitDocs.DiskInsideOutputDir | docs/discogs-api/split_existing_docs.py:73-85 | every file the run leaves lies directly inside the output directory and ends in ".md" |
| SplitDocs.ConcatShape | docs/discogs-api/split_existing_docs.py:77 | a directory prefix followed by a '/'-free ".md" name has that shape |

## Left out

- Rendering, routing and context wiring (views, layout, player overlay, album grid, import dialog, scraping view, toasts and logs): presentation with no state logic of its own.
- Persistence of the queue and the filters in `localStorage` (src/context/QueueContext.tsx:47-83, src/hooks/useAlbumFilters.ts:53-72): I/O. The queue lemmas that need a well-formed state take it as a precondition, because a restored active id need not name a restored item.
- The SQL statements of db.rs and runner.rs, `save_album_from_listing`, the token lookup and the database schema: storage. Their outcomes (`album_exists`, a save or update failing) are oracles of `Runner.Env`. The save loops of `ReleaseFields` return the rows they would insert. In src/context/DataContext.tsx, whether `dbService.toggleLike` (src/services/db.ts:206-213) succeeds is the oracle `dbOk` of `DataUpdates.DataProvider.ToggleLike`, and the outcome of the vote call is the parameter `answer` of `DataUpdates.DataProvider.ToggleVideoLike`.
- The HTTP client, the rate limiter, `fetch_release`, and the YouTube title lookup: network. `get_inventory` is the page oracle of `Inventory`.
- The documentation scraper's fetching and HTML-to-Markdown conversion (`scrape_docs`, `split_by_sections`, `extract_main_content`, `html_to_markdown`): they depend on requests, BeautifulSoup and html2text. `url_to_filepath` is modelled although the script never calls it.
- Reading the input file, `os.makedirs` and the console output of split_existing_docs.py: I/O. Whether each file write succeeds is the oracle `writeOk`. The file writes of scrape_discogs_docs.py (docs/discogs-api/scrape_discogs_docs.py:340-385) are not modelled: unlike the writes of `SplitDocs`, they put a `# {title}` heading and a `Source: {BASE_URL}` line before each section's content and also write a complete `index.md`.
- `refresh` in src/context/DataContext.tsx: an asynchronous load-and-save loop over the network and the database.
- Events, logging, `tokio::time::sleep` between batches, the artificial delays of the mock service, and the `AtomicBool` memory ordering. The cancellation flag is a plain field, and a concurrent `cancel` is the oracle `cancelRequested` consulted at each `check_cancelled`.
- The `setTimeout` of `seekTo` is the explicit event `Audio.Transport.ResetTimerFires`; wall-clock time is not modelled.
- The clock: the seven-day "new" test takes `weekAgo`, the year bound takes `currentYear`, and the "added" sort compares timestamps as numbers. `created_at` of new interactions is not modelled.
- Unicode: `\w`, `\s`, `strip()`, `lower()` and `toLowerCase()` are taken on ASCII only.
- AlbumFilters.AlbumCmp: `localeCompare` is replaced by an ordinal (code-unit) comparison, because locale collation is outside the model. Only the comparator's sign, and its flip with the direction, are proved.
- Sorting.Sort: `Array.prototype.sort` is modelled as one stable insertion sort. The ordering lemma assumes only an antisymmetric comparator and promises only that neighbours are in order, since JavaScript leaves the result unspecified for inconsistent comparators.
- Random ids: `crypto.randomUUID` becomes a counter of fresh natural numbers. Two calls never share an id, which is all the code relies on.
- Runner.ScrapeJob.Run: requires a batch size other than `Some(0)`, because `step_by(0)` panics in the source.
- Runner.ScrapeJob.Run: `processed`, `albums_added`, `albums_updated` and `enrichment_processed` are unbounded naturals. The source's 32-bit counters would overflow only past 2^32 listings.
- Floating point: prices, ratings and progress are reals, with no rounding claims. `Math.floor`/`Math.ceil` of the price bounds are real floor and ceiling.
