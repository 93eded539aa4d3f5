# Subsonic for Android: the download service core in Dafny

This project models `DownloadServiceImpl`, the Android client's download and
playback coordinator, and proves properties of the model. The service owns:

- the ordered queue of `DownloadFile` handles (`downloadList`);
- the `currentPlaying` and `currentDownloading` pointers;
- the `revision` counter, the player state and the buffer task;
- the shuffle-play and jukebox flags;
- the `cleanupCandidates` list;
- the lookup cache behind `forSong`.

Its operations edit the queue:

- enqueue (`download`, appending or inserting after the current track);
- `shuffle`, `clear`, `remove`, `clearIncomplete`.

They move through it:

- `play`, `next`, `previous`;
- the repeat-mode advance after a track completes.

They drive a small player state machine:

- `pause`, `start`, `togglePlayPause`, `reset`;
- the prepared and completion listeners;
- the buffer task.

They also decide what to download next (`checkDownloads`: the current track
first, otherwise a bounded circular scan with a preload limit), keep the
shuffle-play queue topped up and shifted (`checkShufflePlay`), and reclaim
files of obsolete downloads (`cleanup`).

Modules:

- `Seqs`: `ArrayList` operations as sequence functions: `indexOf`,
  `add(i, x)`, `remove(i)`, `remove(Object)`.
- `Domain`: songs, handles, player states, repeat modes, the calls made on
  collaborators (`Effect`), and collaborator answers (`Env`).
- `BufferGate`: the buffer threshold in 32-bit Java arithmetic, the
  readiness test and its polling loop, and the completion decision.
- `Navigation`: the index chosen by repeat mode and by the five-second
  restart rule, the player position, and the toggle decision.
- `QueueSpec`: specification functions for the queue after each edit, and
  the lemmas about them.
- `Scheduler`: the download decision, including the circular scan as a
  method proved against a function.
- `LookupCache`: the least-recently-used cache of capacity 100 behind
  `forSong`.
- `Service`: the class `DownloadService`, whose methods update the fields
  in place.

A `DownloadFile` is the value `Handle(id, song, save)`. The service hands out
ids from the counter `nextId`, so two handles are equal exactly when they are
the same object. `Valid()` keeps the id of every queued handle, and of the current track and
current download, below the counter, which is what makes freshly created
handles distinct from all of them.

Collaborators are modelled as follows:

- The answers of the handles and the platform come in as an `Env` value:
  complete file available, work done, failed, `cleanup()` result, storage
  and network state, preload count, repeat mode, engine and jukebox
  positions, bit rate, buffer length, partial file length.
- The calls the service makes on collaborators are appended to `effects`:
  download, cancel, file cleanup, queue serialisation, and the jukebox
  calls.
- The shuffle-play buffer is the sequence `shufflePool`, which hands out
  songs from its front.

The public wrappers `clear()` (lines 355-357) and `play(int)` (lines
482-484) are `Clear(true)` and `Play(index, true)`.

In these places the code behaves in a way a reader might not expect, and the
model follows the code:

- `clearIncomplete` removes handles without raising the revision.
- `remove` raises the revision even when the handle is not queued.
- `download` with `playNext` and autoplay puts the first new handle in
  front of the current track and the rest behind it, not as one block
  after it.
- `shuffle` with a current track that has left the queue throws after
  reordering.

## Model

| member | source | states |
|---|---|---|
| Seqs.IndexOf | src/net/sourceforge/subsonic/androidapp/service/DownloadServiceImpl.java:451-453 | the result is the first position holding x, and -1 exactly when x is absent |
| Seqs.InsertAtElements | src/net/sourceforge/subsonic/androidapp/service/DownloadServiceImpl.java:238 | add(i, x) leaves the positions before i alone and moves the rest one to the right |
| Seqs.RemoveFirstSpec | src/net/sourceforge/subsonic/androidapp/service/DownloadServiceImpl.java:404 | remove(Object) takes out one occurrence of x (nothing when x is absent) and keeps the count of every other element |
| Seqs.RemoveFirstMembers | src/net/sourceforge/subsonic/androidapp/service/DownloadServiceImpl.java:404 | remove(Object) only takes elements away |
| Seqs.MoveToFrontPermutes | src/net/sourceforge/subsonic/androidapp/service/DownloadServiceImpl.java:299-301 | taking out the current track and adding it at 0 puts it first and keeps the multiset |
| Seqs.IndexOfAfterInsert | src/net/sourceforge/subsonic/androidapp/service/DownloadServiceImpl.java:238 | an insertion at or before the current track's index moves it one place right |
| Seqs.IndexOfInsertAfter | src/net/sourceforge/subsonic/androidapp/service/DownloadServiceImpl.java:238 | an insertion after the current track leaves its index alone |
| QueueSpec.CurrentIndex | src/net/sourceforge/subsonic/androidapp/service/DownloadServiceImpl.java:451-453 | getCurrentPlayingIndex() is a valid index holding the current track, or -1 exactly when there is none or it is not queued |
| QueueSpec.FirstWithSong | src/net/sourceforge/subsonic/androidapp/service/DownloadServiceImpl.java:340-344 | the first queued handle for the song, or -1 exactly when no queued handle is for it |
| QueueSpec.Spliced | src/net/sourceforge/subsonic/androidapp/service/DownloadServiceImpl.java:236-240 | a splice has both lengths added and the union multiset |
| QueueSpec.Enqueued | src/net/sourceforge/subsonic/androidapp/service/DownloadServiceImpl.java:232-248 | download() grows the queue by exactly the batch size |
| QueueSpec.EnqueuedContents | src/net/sourceforge/subsonic/androidapp/service/DownloadServiceImpl.java:232-248 | download() adds exactly the new handles and loses none |
| QueueSpec.EnqueuedPlayNext | src/net/sourceforge/subsonic/androidapp/service/DownloadServiceImpl.java:232-240 | with playNext and offset 1, the batch sits in order right behind the current track (at the front when there is none), and the current track keeps its index |
| QueueSpec.EnqueuedPlayNextQueue | src/net/sourceforge/subsonic/androidapp/service/DownloadServiceImpl.java:232-240 | with playNext and offset 1, the queue is everything up to the current track (nothing when there is none), then the batch in order, then the rest in its old order |
| QueueSpec.EnqueuedAutoplayNext | src/net/sourceforge/subsonic/androidapp/service/DownloadServiceImpl.java:233-240 | with playNext and offset 0, the queue is: prefix, first new handle, current track, other new handles, rest; the current track moves one right |
| QueueSpec.NextInserted | src/net/sourceforge/subsonic/androidapp/service/DownloadServiceImpl.java:236-240 | after j insertions the queue is j longer |
| QueueSpec.NextInsertedStep | src/net/sourceforge/subsonic/androidapp/service/DownloadServiceImpl.java:236-240 | inserting at getCurrentPlayingIndex() + offset, recomputed each time, turns the queue after j insertions into the queue after j + 1 |
| QueueSpec.InsertionPoint | src/net/sourceforge/subsonic/androidapp/service/DownloadServiceImpl.java:238 | the index the playNext loop passes to add(i, x) is within bounds |
| QueueSpec.NextInsertedMembers | src/net/sourceforge/subsonic/androidapp/service/DownloadServiceImpl.java:236-240 | during the loop every queued handle was there before or is one just inserted |
| QueueSpec.NextInsertedDone | src/net/sourceforge/subsonic/androidapp/service/DownloadServiceImpl.java:232-241 | the insertion loop ends with the queue Enqueued describes |
| QueueSpec.CurrentIndexAfterSplice | src/net/sourceforge/subsonic/androidapp/service/DownloadServiceImpl.java:236-240 | inserting a block behind the current track does not move it |
| QueueSpec.KeepCompleteContents | src/net/sourceforge/subsonic/androidapp/service/DownloadServiceImpl.java:362-368 | clearIncomplete keeps exactly the handles whose complete file exists, each as often as before |
| QueueSpec.KeepCompleteConcat | src/net/sourceforge/subsonic/androidapp/service/DownloadServiceImpl.java:362-368 | clearIncomplete keeps relative order: filtering a concatenation filters each part |
| QueueSpec.IncompleteCurrentGoesStale | src/net/sourceforge/subsonic/androidapp/service/DownloadServiceImpl.java:360-371 | a current track without its complete file leaves the queue, and getCurrentPlayingIndex() then gives -1 |
| QueueSpec.CleanupSpareProtected | src/net/sourceforge/subsonic/androidapp/service/DownloadServiceImpl.java:1047-1057 | cleanup never calls cleanup() on, nor drops, the current track or download; a candidate leaves only when unprotected and its cleanup() returned true |
| QueueSpec.ShiftedQueue | src/net/sourceforge/subsonic/androidapp/service/DownloadServiceImpl.java:1026-1031 | the append-then-drop-head shift leaves the queue length unchanged |
| QueueSpec.ShiftedStep | src/net/sourceforge/subsonic/androidapp/service/DownloadServiceImpl.java:1026-1031 | each shift step cancels the current head and turns the queue after j steps into the queue after j + 1 |
| QueueSpec.ShiftedIds | src/net/sourceforge/subsonic/androidapp/service/DownloadServiceImpl.java:1026-1031 | shifted queues hold only ids below the counter |
| QueueSpec.NewHandlesFresh | src/net/sourceforge/subsonic/androidapp/service/DownloadServiceImpl.java:237-246 | the new handles have strictly increasing ids, all from the counter up to the counter plus the batch size, so they differ from each other and from every handle already held |
| Scheduler.Pos | src/net/sourceforge/subsonic/androidapp/service/DownloadServiceImpl.java:996-997 | after k steps the scan is at (start + k) % n: a valid index before a full turn, never back at start before it, and at start exactly after n steps, which is where the do-while loop's `i != start` test stops it |
| Scheduler.WrapNext | src/net/sourceforge/subsonic/androidapp/service/DownloadServiceImpl.java:996 | (i + 1) % n wraps to 0 exactly at the end |
| Scheduler.StepOf | src/net/sourceforge/subsonic/androidapp/service/DownloadServiceImpl.java:982-997 | every index is visited at some step below n |
| Scheduler.PassedDone | src/net/sourceforge/subsonic/androidapp/service/DownloadServiceImpl.java:979-994 | the preloaded tally never exceeds the steps taken |
| Scheduler.FirstQualifyingIsFirst | src/net/sourceforge/subsonic/androidapp/service/DownloadServiceImpl.java:983-997 | the scan's pick is the earliest qualifying step, and none is picked exactly when no step qualifies |
| Scheduler.CircularScan | src/net/sourceforge/subsonic/androidapp/service/DownloadServiceImpl.java:979-997 | the do-while scan returns the first not-done handle that is pinned or within the preload window, or none |
| Scheduler.PassedDoneMonotone | src/net/sourceforge/subsonic/androidapp/service/DownloadServiceImpl.java:992-994 | the preloaded counter never decreases along the scan |
| Scheduler.PreloadWindowCloses | src/net/sourceforge/subsonic/androidapp/service/DownloadServiceImpl.java:986 | once preloadCount done handles were passed, only pinned handles qualify |
| Scheduler.ScanStartAsWritten | src/net/sourceforge/subsonic/androidapp/service/DownloadServiceImpl.java:981 | the scan start as written is -1 exactly when the current track is set but not queued |
| Scheduler.ScanStartAsWrittenOutOfRange | src/net/sourceforge/subsonic/androidapp/service/DownloadServiceImpl.java:981-984 | with a current track that has left the queue the scan would index position -1 |
| Scheduler.ScanStart | src/net/sourceforge/subsonic/androidapp/service/DownloadServiceImpl.java:981 | the corrected start is always a valid index and agrees with the code whenever the current track is queued |
| Scheduler.Decide | src/net/sourceforge/subsonic/androidapp/service/DownloadServiceImpl.java:956-998 | the current track preempts exactly when it is set, is not the current download and is incomplete; a pick happens only with a free or finished slot and names a not-done handle |
| Scheduler.ScanDecision | src/net/sourceforge/subsonic/androidapp/service/DownloadServiceImpl.java:972-998 | when the scan runs, nothing is chosen exactly when no step qualifies, and otherwise the earliest qualifying step is chosen |
| Scheduler.CurrentTrackFirst | src/net/sourceforge/subsonic/androidapp/service/DownloadServiceImpl.java:956-990 | a queued, not-done current track gets a free slot, by preemption or as the scan's first step |
| Scheduler.SingleFlight | src/net/sourceforge/subsonic/androidapp/service/DownloadServiceImpl.java:956-998 | each pass starts at most one download, for the new holder of the slot, after cancelling a preempted one |
| BufferGate.Wrap | src/net/sourceforge/subsonic/androidapp/service/DownloadServiceImpl.java:1073 | an int operation yields the mathematical result modulo 2^32, and the result itself when in range |
| BufferGate.JavaDiv | src/net/sourceforge/subsonic/androidapp/service/DownloadServiceImpl.java:1073 | int division truncates toward zero: for a non-negative dividend the remainder lies in [0, b), for a negative one in (-b, 0] |
| BufferGate.JavaAbs | src/net/sourceforge/subsonic/androidapp/service/DownloadServiceImpl.java:913 | Math.abs is the magnitude of every int except the most negative one, which it returns unchanged |
| BufferGate.ByteCount | src/net/sourceforge/subsonic/androidapp/service/DownloadServiceImpl.java:1072-1073 | the byte count is at least 100000 |
| BufferGate.ByteCountWithoutOverflow | src/net/sourceforge/subsonic/androidapp/service/DownloadServiceImpl.java:1073 | without overflow the byte count is max(100000, bitRate * 128 * bufferLength) |
| BufferGate.NoPlaybackBeforeMinimumBuffered | src/net/sourceforge/subsonic/androidapp/service/DownloadServiceImpl.java:1072-1101 | whatever the position and bit rate, a partial file shorter than 100000 bytes never satisfies the buffer test |
| BufferGate.ResumeWaitsForNewBytes | src/net/sourceforge/subsonic/androidapp/service/DownloadServiceImpl.java:1076-1080 | a resumed task waits for at least 100000 bytes beyond the current partial file |
| BufferGate.AwaitBuffer | src/net/sourceforge/subsonic/androidapp/service/DownloadServiceImpl.java:1087-1092 | the wait ends ready at the first satisfied poll, or cancelled right after an unsatisfied one, and every earlier poll was unsatisfied and not cancelled |
| BufferGate.ReadinessIsMonotone | src/net/sourceforge/subsonic/androidapp/service/DownloadServiceImpl.java:1096-1101 | once ready, a growing partial file stays ready |
| BufferGate.CompletionDecision | src/net/sourceforge/subsonic/androidapp/service/DownloadServiceImpl.java:899-923 | completion from the complete file always advances; without a duration a partial file restarts; a restart is from the engine position |
| BufferGate.CompletionOnPartialFile | src/net/sourceforge/subsonic/androidapp/service/DownloadServiceImpl.java:910-922 | for ordinary values, a partial-file completion advances exactly when within 10 seconds of the duration, and otherwise restarts at pos |
| Navigation.AdvanceStopsOnlyAtEnd | src/net/sourceforge/subsonic/androidapp/service/DownloadServiceImpl.java:552-569 | after a completion, playback stops exactly when repeat is off at the last track; ALL wraps to 0, SINGLE replays, otherwise index + 1 |
| Navigation.PreviousIndex | src/net/sourceforge/subsonic/androidapp/service/DownloadServiceImpl.java:536-541 | previous either restarts the current index or steps back exactly one, never forward |
| Navigation.PlayerPositionMillis | src/net/sourceforge/subsonic/androidapp/service/DownloadServiceImpl.java:636-650 | the position is 0 while idle, downloading or preparing; once loaded it is the engine position, or the jukebox seconds times 1000, which wraps (and so differs from the true product) beyond 2147483 seconds |
| Navigation.PreviousBeforePlaybackStepsBack | src/net/sourceforge/subsonic/androidapp/service/DownloadServiceImpl.java:530-541 | before the engine plays, previous() always steps back from a non-first track |
| Navigation.Toggle | src/net/sourceforge/subsonic/androidapp/service/DownloadServiceImpl.java:505-514 | paused or completed starts the engine, stopped or idle plays the queue, started pauses, and downloading, preparing and prepared do nothing |
| LookupCache.Empty | src/net/sourceforge/subsonic/androidapp/service/DownloadServiceImpl.java:86 | the cache starts empty and valid |
| LookupCache.Find | src/net/sourceforge/subsonic/androidapp/service/DownloadServiceImpl.java:346 | the index of the entry for the song, or -1 exactly when there is none |
| LookupCache.WithoutMembers | src/net/sourceforge/subsonic/androidapp/service/DownloadServiceImpl.java:346-349 | dropping a song's entry keeps the songs unique and keeps exactly the entries for other songs |
| LookupCache.WithoutTakesOne | src/net/sourceforge/subsonic/androidapp/service/DownloadServiceImpl.java:346-349 | dropping a present song's entry shortens the cache by one and removes exactly that entry |
| LookupCache.Get | src/net/sourceforge/subsonic/androidapp/service/DownloadServiceImpl.java:346 | get hits exactly when the song has an entry and returns a handle cached for it, made most recently used; a miss leaves the cache unchanged; the entries are permuted, never lost |
| LookupCache.GetOnHit | src/net/sourceforge/subsonic/androidapp/service/DownloadServiceImpl.java:346 | on a hit the entry moves from its place to the most recently used end, and every other entry keeps its relative order |
| LookupCache.Refreshed | src/net/sourceforge/subsonic/androidapp/service/DownloadServiceImpl.java:349 | re-inserting a song as most recently used keeps songs unique, grows the cache by at most one, and keeps exactly the other songs' entries |
| LookupCache.Put | src/net/sourceforge/subsonic/androidapp/service/DownloadServiceImpl.java:349 | put makes the entry the most recently used and keeps the cache within 100 entries; below capacity, or when the song was cached, the other entries keep their order; a full cache without the song evicts exactly the least recently used entry |
| LookupCache.CachedHandle | src/net/sourceforge/subsonic/androidapp/service/DownloadServiceImpl.java:346-351 | a hit gives the cached handle; a miss gives a new unpinned handle for the song, which the next get returns |
| LookupCache.GetLast | src/net/sourceforge/subsonic/androidapp/service/DownloadServiceImpl.java:346 | the most recently used entry is what get returns for its song |
| LookupCache.PutThenGet | src/net/sourceforge/subsonic/androidapp/service/DownloadServiceImpl.java:346-350 | a handle just put is what the next get of that song returns |
| Service.DownloadService.constructor | src/net/sourceforge/subsonic/androidapp/service/DownloadServiceImpl.java:81-108 | a new service has an empty queue, no pointers, revision 0, an idle player and both flags off |
| Service.DownloadService.UpdateJukeboxPlaylist | src/net/sourceforge/subsonic/androidapp/service/DownloadServiceImpl.java:262-266 | the jukebox is told only when jukebox mode is on |
| Service.DownloadService.Reset | src/net/sourceforge/subsonic/androidapp/service/DownloadServiceImpl.java:623-633 | reset cancels the buffer task and leaves the engine idle with nothing loaded |
| Service.DownloadService.Clear | src/net/sourceforge/subsonic/androidapp/service/DownloadServiceImpl.java:378-392 | clear empties the queue, nulls both pointers, cancels the current download, resets the player (cancelling the buffer task), raises the revision by one and serialises when asked |
| Service.DownloadService.Remove | src/net/sourceforge/subsonic/androidapp/service/DownloadServiceImpl.java:395-408 | remove drops the first occurrence, nulls whichever pointer was h and leaves the other; removing the current track resets the player, otherwise the player, buffer task and playback are untouched; the revision rises by one even when h is absent |
| Service.DownloadService.ClearIncomplete | src/net/sourceforge/subsonic/androidapp/service/DownloadServiceImpl.java:360-371 | clearIncomplete leaves KeepComplete of the queue, resets the player (cancelling the buffer task), and leaves the revision and the current track alone |
| Service.DownloadService.FilterComplete | src/net/sourceforge/subsonic/androidapp/service/DownloadServiceImpl.java:362-368 | the iterator loop computes KeepComplete |
| Service.DownloadService.Shuffle | src/net/sourceforge/subsonic/androidapp/service/DownloadServiceImpl.java:297-306 | shuffle permutes the queue, puts the current track first, and raises the revision by one; it throws exactly when the current track is not queued |
| Service.DownloadService.Cleanup | src/net/sourceforge/subsonic/androidapp/service/DownloadServiceImpl.java:1047-1057 | the candidates become the survivors and one cleanup() call is made per unprotected candidate, in order |
| Service.DownloadService.ScheduleDownloads | src/net/sourceforge/subsonic/androidapp/service/DownloadServiceImpl.java:956-1001 | the slot and calls follow Decide, then cleanup runs with the new pointers |
| Service.DownloadService.TakeShuffle | src/net/sourceforge/subsonic/androidapp/service/DownloadServiceImpl.java:1014 | the buffer hands out at most n songs from its front |
| Service.DownloadService.Refill | src/net/sourceforge/subsonic/androidapp/service/DownloadServiceImpl.java:1011-1019 | a queue shorter than 20 gets the handed-out songs appended as new unpinned handles, one revision per song |
| Service.DownloadService.Shift | src/net/sourceforge/subsonic/androidapp/service/DownloadServiceImpl.java:1025-1031 | each handed-out song appends a handle and cancels and drops the head, one revision per song |
| Service.DownloadService.ShiftAll | src/net/sourceforge/subsonic/androidapp/service/DownloadServiceImpl.java:1026-1031 | the loop over the handed-out songs leaves ShiftedQueue after all of them, cancels the old heads in queue order, and raises the revision and the counter by the number of songs |
| Service.DownloadService.ShiftOne | src/net/sourceforge/subsonic/androidapp/service/DownloadServiceImpl.java:1027-1030 | one step appends a fresh unpinned handle for the song, cancels the head's download and drops the head, raising the revision and the counter by one |
| Service.DownloadService.ShiftPastCurrent | src/net/sourceforge/subsonic/androidapp/service/DownloadServiceImpl.java:1021-1032 | past index 4 the queue shifts by min(index - 2, available); the current track moves left by that much |
| Service.DownloadService.TopUp | src/net/sourceforge/subsonic/androidapp/service/DownloadServiceImpl.java:1006-1036 | refill by min(20 - length, available) songs, then shift by min(index - 2, remaining) past index 4: the exact queue, the cancelled heads, the revision, the ids and the songs taken from the buffer |
| Service.DownloadService.ShiftAndSync | src/net/sourceforge/subsonic/androidapp/service/DownloadServiceImpl.java:1021-1036 | the shift past the current track, with the jukebox told exactly when the revision moved during the refill or the shift |
| Service.DownloadService.CheckShufflePlay | src/net/sourceforge/subsonic/androidapp/service/DownloadServiceImpl.java:1004-1041 | a queue that was empty and is refilled makes its first new handle current and starts it; otherwise the pointers and player are untouched |
| Service.DownloadService.CheckDownloads | src/net/sourceforge/subsonic/androidapp/service/DownloadServiceImpl.java:938-1002 | no storage changes nothing; jukebox, no network or an empty queue choose no download; otherwise the slot follows Decide and cleanup follows |
| Service.DownloadService.ScheduleIfAllowed | src/net/sourceforge/subsonic/androidapp/service/DownloadServiceImpl.java:948-1001 | with the jukebox on, the network down or an empty queue nothing changes; otherwise the download slot follows NextDownload, and the cleanup list and calls follow the download calls and cleanup |
| Service.DownloadService.Download | src/net/sourceforge/subsonic/androidapp/service/DownloadServiceImpl.java:225-260 | download turns shuffle play off; an empty batch changes nothing else; a batch gives the Enqueued queue with one revision and ends by serialising; with autoplay the first entry becomes current and starts; without, a null current track becomes element 0, the player is untouched, and the download slot, cleanup and calls follow checkDownloads |
| Service.DownloadService.EnqueueAndPlay | src/net/sourceforge/subsonic/androidapp/service/DownloadServiceImpl.java:232-252 | with autoplay: the Enqueued queue, one revision, and the first entry current and started |
| Service.DownloadService.EnqueueAndCheck | src/net/sourceforge/subsonic/androidapp/service/DownloadServiceImpl.java:232-258 | without autoplay: the Enqueued queue, one revision, the current track chosen, the player untouched, and the slot, cleanup and calls of checkDownloads |
| Service.DownloadService.SelectFirstAndCheck | src/net/sourceforge/subsonic/androidapp/service/DownloadServiceImpl.java:254-257 | a null current track becomes element 0; then, when downloads may run, the slot, cleanup and calls follow Decide and cleanup, and otherwise nothing changes |
| Service.DownloadService.Enqueue | src/net/sourceforge/subsonic/androidapp/service/DownloadServiceImpl.java:232-248 | the queue edit of download gives Enqueued's queue and one revision |
| Service.DownloadService.Append | src/net/sourceforge/subsonic/androidapp/service/DownloadServiceImpl.java:243-246 | without playNext the new handles are appended in order |
| Service.DownloadService.InsertNext | src/net/sourceforge/subsonic/androidapp/service/DownloadServiceImpl.java:232-240 | with playNext the insertion loop gives Enqueued's queue |
| Service.DownloadService.InsertAtOffsets | src/net/sourceforge/subsonic/androidapp/service/DownloadServiceImpl.java:236-240 | the loop that recomputes the insertion index each time gives NextInserted after all songs |
| Service.DownloadService.BufferAndPlay | src/net/sourceforge/subsonic/androidapp/service/DownloadServiceImpl.java:817-822 | reset, then a new buffer task for the current track at position 0 |
| Service.DownloadService.DoPlay | src/net/sourceforge/subsonic/androidapp/service/DownloadServiceImpl.java:824-864 | the engine gets the handle from its complete file when available, and the player is preparing |
| Service.DownloadService.OnPrepared | src/net/sourceforge/subsonic/androidapp/service/DownloadServiceImpl.java:865-884 | the prepared player starts or stops as doPlay asked, and the queue is serialised |
| Service.DownloadService.OnCompletion | src/net/sourceforge/subsonic/androidapp/service/DownloadServiceImpl.java:886-926 | completion follows CompletionDecision: advance by repeat mode, or reset and buffer again from the engine position |
| Service.DownloadService.RunBufferTask | src/net/sourceforge/subsonic/androidapp/service/DownloadServiceImpl.java:1084-1094 | the task reports downloading and, once the buffer is ready, plays its handle from its position |
| Service.DownloadService.SetShufflePlayEnabled | src/net/sourceforge/subsonic/androidapp/service/DownloadServiceImpl.java:279-290 | no change when equal; turning off flips only the flag; turning on clears and, with storage and songs, fills the queue and starts playing the first new handle |
| Service.DownloadService.SetJukeboxEnabled | src/net/sourceforge/subsonic/androidapp/service/DownloadServiceImpl.java:733-745 | the jukebox is told; turning it on resets playback and cancels the current download without nulling the pointer |
| Service.DownloadService.Play | src/net/sourceforge/subsonic/androidapp/service/DownloadServiceImpl.java:486-502 | an index outside the queue resets and nulls the current track; otherwise that entry becomes current and, when asked, starts by jukebox skip or buffer task; with shuffle off the queue is kept and the slot, cleanup and calls follow checkDownloads |
| Service.DownloadService.PlayCurrent | src/net/sourceforge/subsonic/androidapp/service/DownloadServiceImpl.java:471-479 | play() resumes the current track, or starts from the first entry when none is queued; playback starts for a non-empty queue; with shuffle off the queue is kept |
| Service.DownloadService.Next | src/net/sourceforge/subsonic/androidapp/service/DownloadServiceImpl.java:545-550 | next plays and starts the following entry, stops after the last, and does nothing without a queued current track; with shuffle off the queue is kept |
| Service.DownloadService.Previous | src/net/sourceforge/subsonic/androidapp/service/DownloadServiceImpl.java:530-542 | previous plays and starts the entry PreviousIndex names, which is the one before while the engine has not started; with shuffle off the queue is kept |
| Service.DownloadService.OnSongCompleted | src/net/sourceforge/subsonic/androidapp/service/DownloadServiceImpl.java:552-569 | the next track follows the repeat mode and starts; playback stops exactly when repeat is off and the track was last; with shuffle off the queue is kept |
| Service.DownloadService.Pause | src/net/sourceforge/subsonic/androidapp/service/DownloadServiceImpl.java:572-585 | only a started player pauses, stopping the jukebox when on and serialising the queue |
| Service.DownloadService.Start | src/net/sourceforge/subsonic/androidapp/service/DownloadServiceImpl.java:609-620 | start always ends started, starting the jukebox when on |
| Service.DownloadService.TogglePlayPause | src/net/sourceforge/subsonic/androidapp/service/DownloadServiceImpl.java:505-514 | paused or completed resumes, started pauses, stopped or idle plays the queue, and other states change nothing |
| Service.DownloadService.ForSong | src/net/sourceforge/subsonic/androidapp/service/DownloadServiceImpl.java:339-352 | forSong returns the first queued handle for the song, else the cached one, else a new unpinned handle that is then cached |
| Service.DownloadService.FromCache | src/net/sourceforge/subsonic/androidapp/service/DownloadServiceImpl.java:346-351 | the cache step of forSong gives CachedHandle's handle and cache, and uses an id only on a miss |
| Service.MovedToFront | src/net/sourceforge/subsonic/androidapp/service/DownloadServiceImpl.java:299-301 | removing the current track at its index and adding it at 0 puts it first and keeps both the multiset and the members of the queue |
| Service.RefilledIndex | src/net/sourceforge/subsonic/androidapp/service/DownloadServiceImpl.java:1013-1021 | appending fresh handles does not move the current track |
| Service.ShiftedIndex | src/net/sourceforge/subsonic/androidapp/service/DownloadServiceImpl.java:1021-1031 | shifting m handles out in front of the current track moves it m places left |

## Left out

- The Android media engine: `MediaPlayer` setup, data sources, `prepareAsync`, `seekTo` and `start`. `DoPlay` records what the engine was handed, and the prepared and completion listeners are methods the caller invokes.
- Engine exceptions and `handleError` (lines 932-936).
- Notifications, remote-control metadata, broadcasts, audio focus, wake locks, the scrobbler called from `setPlayerState`, the buffering progress bar, and the stream proxy. These are platform and UI code.
- `restore`, `delete`, `unpin`, `seekTo` and `stop` (lines 268-277, 411-422, 517-527, 588-606). `stop` behaves as `pause` plus releasing audio focus.
- Getters and preference passthroughs: `size`, `getDownloads`, `getPlayerDuration`, the repeat mode, keep-screen-on and visualisation settings.
- Concurrency: the `synchronized` methods, the buffer task's thread and its one-second sleep. Operations run one at a time, and the buffer wait is a sequence of polls.
- `LRUCache.java` is not part of this model. `LookupCache` assumes what its use promises: a get refreshes recency, and a put evicts the least recently used entry at capacity 100.
- `ShufflePlayBuffer.java` is not part of this model. The buffer is the fixed sequence `shufflePool`, handed out from its front.
- `DownloadFile.java` is not part of this model. Its answers come from `Env`, and its `download`, `cancelDownload` and `cleanup` calls are recorded as effects.
- Service.DownloadService.Shuffle: `Collections.shuffle` is an arbitrary permutation chosen by `:|`. Nothing is said about randomness.
- Service.DownloadService.CheckShufflePlay: for a non-empty queue only the new length is stated. Refill and ShiftPastCurrent state the exact queue.
- Service.DownloadService.CheckDownloads: with shuffle play on and a non-empty queue, only which fields stay unchanged is stated. The download decision after the nested refill is not.
- Service.DownloadService.CheckDownloads: with a current track that has left the queue and a current download that is done or failed, the code throws on `get(-1)` (lines 981-984). The model scans from the corrected start instead; see Findings.
- Service.DownloadService.ScheduleDownloads: follows the corrected scan start where the code throws (lines 981-984).
- Scheduler.Decide: follows the corrected scan start where the code throws (lines 981-984).
- Service.DownloadService.Download: with autoplay, the download slot and cleanup after the nested play are stated by Play, not repeated.
- Service.DownloadService.Play: with shuffle play on, the queue after the nested checkDownloads is only known to be no shorter.
- Service.DownloadService.OnCompletion: the advance case states the current-track outcome of onSongCompleted, not the rest of the state.
- Service.DownloadService.TogglePlayPause: for the stopped and idle states only states that a non-empty queue gets a current track.
- Service.DownloadService.RunBufferTask: a task that was cancelled before it started still polls. The model does not tie the task to the `bufferTask` field beyond reading it.
- Navigation.PlayerPositionMillis: the engine position is an input. Its relation to the actual playback is not modelled.
- BufferGate.CompletionOnPartialFile: stated only for durations up to 2,000,000 seconds and non-negative positions. Outside that range `CompletionDecision` still follows the 32-bit arithmetic.

## Findings

| source | as written | input that shows it | evidently intended | confidence | as-written member | corrected member |
|---|---|---|---|---|---|---|
| src/net/sourceforge/subsonic/androidapp/service/DownloadServiceImpl.java:981-984 | the scan starts at `currentPlaying == null ? 0 : getCurrentPlayingIndex()` and reads `downloadList.get(start)` | queue [h, g]; h is both current track and current download, has failed, and lacks its complete file; g is complete. `clearIncomplete()` leaves [g] with `currentPlaying` still h, and the next `checkDownloads()` skips preemption (h is the current download), reaches the scan, and reads position -1 | start the scan at 0 when the current track is not in the queue | not executed; the path follows from the code | Scheduler.ScanStartAsWritten, Scheduler.ScanStartAsWrittenOutOfRange, QueueSpec.IncompleteCurrentGoesStale | Scheduler.ScanStart |
