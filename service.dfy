/**
 DownloadServiceImpl: the queue of download handles, the current-playing and
 current-downloading pointers, the revision counter, the player state and the
 buffer task, and the operations that change them.

 Collaborators are not modelled: their answers come in as an `Env`, the
 calls the service makes on them are appended to `effects`, and the shuffle
 play buffer is the sequence `shufflePool` of songs it will hand out.
 */
module Service {

  import opened Seqs
  import opened Domain
  import opened BufferGate
  import opened Scheduler
  import opened Navigation
  import opened QueueSpec
  import LookupCache

  /** checkShufflePlay keeps the shuffled queue at least this long. */
  const ShuffleListSize: nat := 20
  /** checkShufflePlay shifts the queue once the current track's index is above this. */
  const ShiftAfterIndex: nat := 4

  /** A BufferTask: the handle being buffered, the playback position to resume at, the file size to wait for, and its cancel flag. */
  datatype BufferTask = BufferTask(handle: Handle, position: Int32, expectedFileSize: int, cancelled: bool)

  /** What doPlay handed to the media engine: the handle, the start position, whether to start, and whether the complete file was used. */
  datatype Playback = Playback(handle: Handle, position: Int32, start: bool, fromCompleteFile: bool)

  function Min(a: int, b: int): (m: int)
    ensures m <= a && m <= b && (m == a || m == b)
  {
    if a < b then a else b
  }

  class DownloadService {
    var downloadList: seq<Handle>
    var currentPlaying: Option<Handle>
    var currentDownloading: Option<Handle>
    var revision: nat
    var playerState: PlayerState
    var shufflePlay: bool
    var jukeboxEnabled: bool
    var cleanupCandidates: seq<Handle>
    var bufferTask: Option<BufferTask>
    var playback: Option<Playback>
    var cache: LookupCache.Cache
    var shufflePool: seq<Song>
    /** The id the next `new DownloadFile` receives. */
    var nextId: nat
    var effects: seq<Effect>

    /**
     Every handle in the queue and in the two pointers was created by the
     service, so a fresh handle differs from all of them.
     */
    ghost predicate Valid()
      reads this
    {
      cache.Valid()
      && (forall h :: h in downloadList ==> h.id < nextId)
      && (currentPlaying.Some? ==> currentPlaying.value.id < nextId)
      && (currentDownloading.Some? ==> currentDownloading.value.id < nextId)
    }

    /**
     Playback of the current track has been started: the jukebox plays, or
     the local player is idle while a new buffer task waits for the track's
     first bytes.
     */
    ghost predicate PlaybackStarted(env: Env)
      reads this
    {
      currentPlaying.Some?
      && (jukeboxEnabled ==> playerState == Started)
      && (!jukeboxEnabled ==>
            playerState == Idle && playback == None
            && bufferTask == Some(BufferTask(currentPlaying.value, 0, ExpectedFileSize(0, 0, ByteCount(env.bitRate, env.bufferLength)), false)))
    }

    constructor (pool: seq<Song>)
      ensures Valid()
      ensures downloadList == [] && currentPlaying == None && currentDownloading == None
      ensures revision == 0 && playerState == Idle && !shufflePlay && !jukeboxEnabled
      ensures cleanupCandidates == [] && bufferTask == None && playback == None
      ensures shufflePool == pool && effects == []
    {
      downloadList := [];
      currentPlaying := None;
      currentDownloading := None;
      revision := 0;
      playerState := Idle;
      shufflePlay := false;
      jukeboxEnabled := false;
      cleanupCandidates := [];
      bufferTask := None;
      playback := None;
      cache := LookupCache.Empty();
      shufflePool := pool;
      nextId := 0;
      effects := [];
    }

    /** updateJukeboxPlaylist(): tell the jukebox about the queue when jukebox mode is on. */
    method UpdateJukeboxPlaylist()
      modifies this`effects
      ensures effects == old(effects) + (if jukeboxEnabled then [JukeboxPlaylist] else [])
    {
      if jukeboxEnabled {
        effects := effects + [JukeboxPlaylist];
      }
    }

    /** reset(): cancel the buffer task, reset the engine (which forgets what it was playing) and go idle. */
    method Reset()
      modifies this`bufferTask, this`playback, this`playerState
      ensures playerState == Idle && playback == None
      ensures bufferTask == if old(bufferTask).Some? then Some(old(bufferTask).value.(cancelled := true)) else None
    {
      if bufferTask.Some? {
        bufferTask := Some(bufferTask.value.(cancelled := true));
      }
      playback := None;
      playerState := Idle;
    }

    /**
     clear(serialize): reset playback, empty the queue, cancel and drop the
     current download and drop the current track.
     */
    method Clear(serialize: bool)
      requires Valid()
      modifies this`bufferTask, this`playback, this`playerState, this`downloadList, this`revision,
        this`currentDownloading, this`currentPlaying, this`effects
      ensures Valid()
      ensures downloadList == [] && currentPlaying == None && currentDownloading == None
      ensures revision == old(revision) + 1
      ensures playerState == Idle && playback == None
      ensures bufferTask == if old(bufferTask).Some? then Some(old(bufferTask).value.(cancelled := true)) else None
      ensures effects == old(effects)
        + (if old(currentDownloading).Some? then [CancelDownload(old(currentDownloading).value)] else [])
        + (if serialize then [SerializeQueue] else [])
        + (if jukeboxEnabled then [JukeboxPlaylist] else [])
    {
      Reset();
      downloadList := [];
      revision := revision + 1;
      if currentDownloading.Some? {
        effects := effects + [CancelDownload(currentDownloading.value)];
        currentDownloading := None;
      }
      currentPlaying := None;
      if serialize {
        effects := effects + [SerializeQueue];
      }
      UpdateJukeboxPlaylist();
    }

    /**
     remove(h): cancel h if it is the current download, stop playback if it is
     the current track, and drop its first occurrence from the queue. The
     revision goes up even when h is not queued.
     */
    method Remove(h: Handle)
      requires Valid()
      modifies this`bufferTask, this`playback, this`playerState, this`downloadList, this`revision,
        this`currentDownloading, this`currentPlaying, this`effects
      ensures Valid()
      ensures downloadList == RemoveFirst(old(downloadList), h)
      ensures revision == old(revision) + 1
      ensures currentDownloading == if old(currentDownloading) == Some(h) then None else old(currentDownloading)
      ensures currentPlaying == if old(currentPlaying) == Some(h) then None else old(currentPlaying)
      ensures old(currentPlaying) == Some(h) ==>
        playerState == Idle && playback == None
        && bufferTask == if old(bufferTask).Some? then Some(old(bufferTask).value.(cancelled := true)) else None
      ensures old(currentPlaying) != Some(h) ==>
        playerState == old(playerState) && bufferTask == old(bufferTask) && playback == old(playback)
      ensures effects == old(effects)
        + (if old(currentDownloading) == Some(h) then [CancelDownload(h)] else [])
        + [SerializeQueue]
        + (if jukeboxEnabled then [JukeboxPlaylist] else [])
    {
      if Some(h) == currentDownloading {
        effects := effects + [CancelDownload(h)];
        currentDownloading := None;
      }
      if Some(h) == currentPlaying {
        Reset();
        currentPlaying := None;
      }
      var rest := RemoveFirst(downloadList, h);
      RemoveFirstMembers(downloadList, h);
      downloadList := rest;
      revision := revision + 1;
      effects := effects + [SerializeQueue];
      UpdateJukeboxPlaylist();
    }

    /**
     clearIncomplete(): reset playback and drop every handle whose complete
     file is not available, keeping the others in order. The revision and the
     current-track pointer are left as they are.
     */
    method ClearIncomplete(env: Env)
      requires Valid()
      modifies this`bufferTask, this`playback, this`playerState, this`downloadList, this`effects
      ensures Valid()
      ensures downloadList == KeepComplete(old(downloadList), env.complete)
      ensures playerState == Idle && playback == None
      ensures bufferTask == if old(bufferTask).Some? then Some(old(bufferTask).value.(cancelled := true)) else None
      ensures effects == old(effects) + [SerializeQueue] + (if jukeboxEnabled then [JukeboxPlaylist] else [])
    {
      Reset();
      var all := downloadList;
      var kept := FilterComplete(all, env.complete);
      assert forall h :: h in kept ==> h.id < nextId by {
        KeepCompleteContents(all, env.complete);
      }
      downloadList := kept;
      effects := effects + [SerializeQueue];
      UpdateJukeboxPlaylist();
    }

    /** The iterator loop of clearIncomplete: keep the handles whose complete file is available, in order. */
    static method FilterComplete(all: seq<Handle>, complete: set<Handle>) returns (kept: seq<Handle>)
      ensures kept == KeepComplete(all, complete)
    {
      kept := [];
      var i := 0;
      while i < |all|
        invariant 0 <= i <= |all|
        invariant kept == KeepComplete(all[..i], complete)
      {
        assert all[..i + 1][..i] == all[..i];
        if all[i] in complete {
          kept := kept + [all[i]];
        }
        i := i + 1;
      }
      assert all[..i] == all;
    }

    /**
     shuffle(): put the queue in an arbitrary order, then move the current
     track to the front. When the current track is no longer in the queue,
     remove(-1) throws after the reordering, and the revision is not raised.
     */
    method Shuffle() returns (thrown: bool)
      requires Valid()
      modifies this`downloadList, this`revision, this`effects
      ensures Valid()
      ensures multiset(downloadList) == multiset(old(downloadList))
      ensures thrown <==> old(currentPlaying).Some? && old(currentPlaying).value !in old(downloadList)
      ensures !thrown && currentPlaying.Some? ==> |downloadList| > 0 && downloadList[0] == currentPlaying.value
      ensures revision == if thrown then old(revision) else old(revision) + 1
      ensures effects == if thrown then old(effects)
                         else old(effects) + [SerializeQueue] + (if jukeboxEnabled then [JukeboxPlaylist] else [])
    {
      var shuffled :| multiset(shuffled) == multiset(downloadList);
      SameMembers(shuffled, downloadList);
      thrown := false;
      if currentPlaying.Some? {
        var i := CurrentIndex(shuffled, currentPlaying);
        if i < 0 {
          downloadList := shuffled;
          return true;
        }
        var moved := InsertAt(RemoveAt(shuffled, i), 0, currentPlaying.value);
        MovedToFront(shuffled, currentPlaying.value);
        downloadList := moved;
      } else {
        downloadList := shuffled;
      }
      revision := revision + 1;
      effects := effects + [SerializeQueue];
      UpdateJukeboxPlaylist();
    }

    /**
     cleanup(): ask every candidate other than the current track and the
     current download to delete its files, and drop those that did.
     */
    method Cleanup(env: Env)
      modifies this`cleanupCandidates, this`effects
      ensures cleanupCandidates == Survivors(old(cleanupCandidates), currentPlaying, currentDownloading, env.reclaimable)
      ensures effects == old(effects) + CleanupCalls(old(cleanupCandidates), currentPlaying, currentDownloading)
    {
      var all := cleanupCandidates;
      var kept := [];
      var calls := [];
      var i := 0;
      while i < |all|
        invariant 0 <= i <= |all|
        invariant kept == Survivors(all[..i], currentPlaying, currentDownloading, env.reclaimable)
        invariant calls == CleanupCalls(all[..i], currentPlaying, currentDownloading)
      {
        assert all[..i + 1][..i] == all[..i];
        var h := all[i];
        if Some(h) != currentPlaying && Some(h) != currentDownloading {
          calls := calls + [CleanupFiles(h)];
          if h !in env.reclaimable {
            kept := kept + [h];
          }
        } else {
          kept := kept + [h];
        }
        i := i + 1;
      }
      assert all[..i] == all;
      cleanupCandidates := kept;
      effects := effects + calls;
    }

    /**
     The part of checkDownloads that runs once its guards have passed: give the
     download slot to the current track if it needs it, else scan for the next
     download when the slot is free, then clean up.
     */
    method ScheduleDownloads(env: Env)
      requires Valid() && downloadList != []
      modifies this`currentDownloading, this`cleanupCandidates, this`effects
      ensures Valid()
      ensures currentDownloading == NextDownload(downloadList, currentPlaying, old(currentDownloading), env)
      ensures var before := old(cleanupCandidates) + StartedHandles(downloadList, currentPlaying, old(currentDownloading), env);
        cleanupCandidates == Survivors(before, currentPlaying, currentDownloading, env.reclaimable)
        && effects == old(effects)
             + DownloadCalls(downloadList, currentPlaying, old(currentDownloading), env)
             + CleanupCalls(before, currentPlaying, currentDownloading)
    {
      ghost var cd0 := currentDownloading;
      ghost var d := Decide(downloadList, currentPlaying, cd0, env);
      if currentPlaying.Some? && currentPlaying != currentDownloading && currentPlaying.value !in env.complete {
        assert d == Preempt(currentPlaying.value);
        if currentDownloading.Some? {
          effects := effects + [CancelDownload(currentDownloading.value)];
        }
        currentDownloading := currentPlaying;
        effects := effects + [StartDownload(currentDownloading.value)];
        cleanupCandidates := cleanupCandidates + [currentDownloading.value];
      } else if currentDownloading.None? || IsDone(currentDownloading.value, env) {
        var start := ScanStart(downloadList, currentPlaying);
        var pick := CircularScan(downloadList, start, currentPlaying, env.workDone, env.preloadCount);
        assert d == if pick.Some? then Pick(pick.value) else Keep;
        if pick.Some? {
          currentDownloading := Some(downloadList[pick.value]);
          effects := effects + [StartDownload(currentDownloading.value)];
          cleanupCandidates := cleanupCandidates + [currentDownloading.value];
        }
      } else {
        assert d == Keep;
      }
      assert cleanupCandidates == old(cleanupCandidates) + StartedHandles(downloadList, currentPlaying, cd0, env);
      assert effects == old(effects) + DownloadCalls(downloadList, currentPlaying, cd0, env);
      Cleanup(env);
    }
  

    /** shufflePlayBuffer.get(n): the next songs the shuffle source hands out, at most n of them. */
    method TakeShuffle(n: nat) returns (songs: seq<Song>)
      modifies this`shufflePool
      ensures songs == old(shufflePool)[..Min(n, |old(shufflePool)|)]
      ensures shufflePool == old(shufflePool)[|songs|..]
    {
      songs := shufflePool[..Min(n, |shufflePool|)];
      shufflePool := shufflePool[|songs|..];
    }

    /** The first half of checkShufflePlay: top the queue up to 20 songs, one revision per song added. */
    method Refill() returns (added: nat)
      requires Valid()
      modifies this`downloadList, this`revision, this`nextId, this`shufflePool
      ensures Valid()
      ensures added == if |old(downloadList)| < ShuffleListSize
                       then Min(ShuffleListSize - |old(downloadList)|, |old(shufflePool)|) else 0
      ensures downloadList == old(downloadList) + NewHandles(old(shufflePool)[..added], old(nextId), false)
      ensures revision == old(revision) + added && nextId == old(nextId) + added
      ensures shufflePool == old(shufflePool)[added..]
      ensures added == 0 ==> unchanged(this)
    {
      added := 0;
      var size := |downloadList|;
      if size < ShuffleListSize {
        var songs := TakeShuffle(ShuffleListSize - size);
        if songs == [] {
          assert old(shufflePool)[0..] == old(shufflePool);
          return;
        }
        var j := 0;
        while j < |songs|
          modifies this`downloadList, this`nextId, this`revision
          invariant 0 <= j <= |songs|
          invariant downloadList == old(downloadList) + NewHandles(songs[..j], old(nextId), false)
          invariant nextId == old(nextId) + j && revision == old(revision) + j
          invariant forall h :: h in downloadList ==> h.id < nextId
        {
          assert songs[..j + 1] == songs[..j] + [songs[j]];
          downloadList := downloadList + [Handle(nextId, songs[j], false)];
          nextId := nextId + 1;
          revision := revision + 1;
          j := j + 1;
        }
        assert songs[..j] == songs;
        added := |songs|;
      } else {
        assert old(shufflePool)[..0] == [];
      }
    }

    /**
     The second half of checkShufflePlay: for each song handed out for `count`,
     append it, cancel the head's download and drop the head, one revision
     per song.
     */
    method Shift(count: nat) returns (shifted: nat)
      requires Valid() && count < |downloadList|
      modifies this`downloadList, this`revision, this`nextId, this`shufflePool, this`effects
      ensures Valid()
      ensures shifted == Min(count, |old(shufflePool)|)
      ensures downloadList == ShiftedQueue(old(downloadList), old(shufflePool)[..shifted], old(nextId), shifted)
      ensures effects == old(effects) + Cancels(old(downloadList)[..shifted])
      ensures revision == old(revision) + shifted && nextId == old(nextId) + shifted
      ensures shufflePool == old(shufflePool)[shifted..]
      ensures shifted == 0 ==> unchanged(this)
    {
      var songs := TakeShuffle(count);
      ghost var base := downloadList;
      if songs == [] {
        assert old(shufflePool)[0..] == old(shufflePool);
        assert NewHandles(songs[..0], nextId, false) == [];
        assert (base + [])[0..] == base;
        return 0;
      }
      ShiftAll(songs);
      ShiftedIds(base, songs, old(nextId), |songs|);
      shifted := |songs|;
    }

    /** The shift loop: for each song, append a fresh handle, cancel the head's download and drop the head. */
    method ShiftAll(songs: seq<Song>)
      requires |songs| < |downloadList|
      modifies this`downloadList, this`nextId, this`revision, this`effects
      ensures downloadList == ShiftedQueue(old(downloadList), songs, old(nextId), |songs|)
      ensures effects == old(effects) + Cancels(old(downloadList)[..|songs|])
      ensures nextId == old(nextId) + |songs| && revision == old(revision) + |songs|
    {
      ghost var base := downloadList;
      var j := 0;
      assert base[..0] == [] && songs[..0] == [];
      assert downloadList == ShiftedQueue(base, songs, nextId, 0);
      while j < |songs|
        invariant 0 <= j <= |songs|
        invariant downloadList == ShiftedQueue(base, songs, old(nextId), j)
        invariant nextId == old(nextId) + j && revision == old(revision) + j
        invariant effects == old(effects) + Cancels(base[..j])
      {
        ShiftedStep(base, songs, old(nextId), j);
        ghost var prev := downloadList;
        ShiftOne(songs[j]);
        assert downloadList == (prev + [Handle(old(nextId) + j, songs[j], false)])[1..];
        j := j + 1;
      }
    }

    /** One step of the shift: append a fresh handle for song, cancel the head's download and drop the head. */
    method ShiftOne(song: Song)
      requires downloadList != []
      modifies this`downloadList, this`nextId, this`revision, this`effects
      ensures downloadList == (old(downloadList) + [Handle(old(nextId), song, false)])[1..]
      ensures effects == old(effects) + [CancelDownload(old(downloadList)[0])]
      ensures nextId == old(nextId) + 1 && revision == old(revision) + 1
    {
      downloadList := downloadList + [Handle(nextId, song, false)];
      effects := effects + [CancelDownload(downloadList[0])];
      downloadList := downloadList[1..];
      nextId := nextId + 1;
      revision := revision + 1;
    }

    /**
     The shift step of checkShufflePlay on its own: when the current track is
     past index 4, shift in as many songs as the source hands out for
     `index - 2`; a missing current track counts as index 0. The ghost
     parameters name the queue, the buffer and the counter before the shift.
     */
    method ShiftPastCurrent(ghost base: seq<Handle>, ghost songs: seq<Song>, ghost firstId: nat) returns (shifted: nat)
      requires Valid() && downloadList == base && shufflePool == songs && nextId == firstId
      modifies this`downloadList, this`revision, this`nextId, this`shufflePool, this`effects
      ensures Valid()
      ensures var ci := CurrentIndex(base, currentPlaying);
        shifted == if ci > ShiftAfterIndex then Min(ci - 2, |songs|) else 0
      ensures shifted <= |base| && shifted <= |songs|
      ensures downloadList == ShiftedQueue(base, songs[..shifted], firstId, shifted)
      ensures effects == old(effects) + Cancels(base[..shifted])
      ensures revision == old(revision) + shifted && nextId == firstId + shifted
      ensures shufflePool == songs[shifted..]
      ensures shifted > 0 ==> CurrentIndex(downloadList, currentPlaying) == CurrentIndex(base, currentPlaying) - shifted
    {
      var currIndex := if currentPlaying.None? then 0 else IndexOf(downloadList, currentPlaying.value);
      shifted := 0;
      if currIndex > ShiftAfterIndex {
        shifted := Shift(currIndex - 2);
        ShiftedIndex(base, songs[..shifted], firstId, shifted, currentPlaying.value, downloadList);
      } else {
        assert NewHandles(songs[..0], firstId, false) == [];
        assert (base + [])[0..] == base;
        assert songs[0..] == songs;
      }
    }

    /**
     download(songs, save, autoplay, playNext): leave shuffle play; for a
     non-empty list, enqueue the songs and tell the jukebox, then either play
     the first entry or, without autoplay, make the first entry current when
     nothing is and reschedule the downloads; finally save the queue.
     */
    method Download(songs: seq<Song>, save: bool, autoplay: bool, playNext: bool, env: Env)
      requires Valid()
      modifies this
      ensures Valid()
      ensures !shufflePlay && jukeboxEnabled == old(jukeboxEnabled)
      ensures songs == [] ==>
        downloadList == old(downloadList) && revision == old(revision)
        && currentPlaying == old(currentPlaying) && currentDownloading == old(currentDownloading)
        && playerState == old(playerState) && bufferTask == old(bufferTask) && effects == old(effects)
        && playback == old(playback) && cleanupCandidates == old(cleanupCandidates) && cache == old(cache)
        && nextId == old(nextId) && shufflePool == old(shufflePool)
      ensures songs != [] ==>
        downloadList == Enqueued(old(downloadList), old(currentPlaying), NewHandles(songs, old(nextId), save), autoplay, playNext)
        && revision == old(revision) + 1
        && |effects| > 0 && effects[|effects| - 1] == SerializeQueue
      ensures songs != [] && autoplay ==> currentPlaying == Some(downloadList[0]) && PlaybackStarted(env)
      ensures songs != [] && !autoplay ==>
        currentPlaying == (if old(currentPlaying).None? then Some(downloadList[0]) else old(currentPlaying))
        && playerState == old(playerState) && bufferTask == old(bufferTask) && playback == old(playback)
      ensures songs != [] && !autoplay ==>
        var go := env.storagePresent && env.storageAvailable && !jukeboxEnabled && env.networkConnected;
        var before := old(cleanupCandidates) + StartedHandles(downloadList, currentPlaying, old(currentDownloading), env);
        (go ==>
           currentDownloading == NextDownload(downloadList, currentPlaying, old(currentDownloading), env)
           && cleanupCandidates == Survivors(before, currentPlaying, currentDownloading, env.reclaimable)
           && effects == old(effects) + (if jukeboxEnabled then [JukeboxPlaylist] else [])
                + DownloadCalls(downloadList, currentPlaying, old(currentDownloading), env)
                + CleanupCalls(before, currentPlaying, currentDownloading) + [SerializeQueue])
        && (!go ==>
              currentDownloading == old(currentDownloading) && cleanupCandidates == old(cleanupCandidates)
              && effects == old(effects) + (if jukeboxEnabled then [JukeboxPlaylist] else []) + [SerializeQueue])
    {
      shufflePlay := false;
      if songs == [] {
        return;
      }
      if autoplay {
        EnqueueAndPlay(songs, save, playNext, env);
      } else {
        EnqueueAndCheck(songs, save, playNext, env);
      }
      effects := effects + [SerializeQueue];
    }

    /** download() with autoplay, before the queue is saved: queue the songs, tell the jukebox, play the first entry. */
    method EnqueueAndPlay(songs: seq<Song>, save: bool, playNext: bool, env: Env)
      requires Valid() && songs != [] && !shufflePlay
      modifies this
      ensures Valid()
      ensures !shufflePlay && jukeboxEnabled == old(jukeboxEnabled)
      ensures downloadList == Enqueued(old(downloadList), old(currentPlaying), NewHandles(songs, old(nextId), save), true, playNext)
      ensures revision == old(revision) + 1
      ensures currentPlaying == Some(downloadList[0]) && PlaybackStarted(env)
    {
      Enqueue(songs, save, true, playNext);
      UpdateJukeboxPlaylist();
      Play(0, true, env);
    }

    /** download() without autoplay, before the queue is saved: queue the songs, tell the jukebox, reschedule. */
    method EnqueueAndCheck(songs: seq<Song>, save: bool, playNext: bool, env: Env)
      requires Valid() && songs != [] && !shufflePlay
      modifies this
      ensures Valid()
      ensures !shufflePlay && jukeboxEnabled == old(jukeboxEnabled)
      ensures downloadList == Enqueued(old(downloadList), old(currentPlaying), NewHandles(songs, old(nextId), save), false, playNext)
      ensures revision == old(revision) + 1
      ensures currentPlaying == (if old(currentPlaying).None? then Some(downloadList[0]) else old(currentPlaying))
        && playerState == old(playerState) && bufferTask == old(bufferTask) && playback == old(playback)
      ensures var go := env.storagePresent && env.storageAvailable && !jukeboxEnabled && env.networkConnected;
        var before := old(cleanupCandidates) + StartedHandles(downloadList, currentPlaying, old(currentDownloading), env);
        (go ==>
           currentDownloading == NextDownload(downloadList, currentPlaying, old(currentDownloading), env)
           && cleanupCandidates == Survivors(before, currentPlaying, currentDownloading, env.reclaimable)
           && effects == old(effects) + (if jukeboxEnabled then [JukeboxPlaylist] else [])
                + DownloadCalls(downloadList, currentPlaying, old(currentDownloading), env)
                + CleanupCalls(before, currentPlaying, currentDownloading))
        && (!go ==>
              currentDownloading == old(currentDownloading) && cleanupCandidates == old(cleanupCandidates)
              && effects == old(effects) + (if jukeboxEnabled then [JukeboxPlaylist] else []))
    {
      Enqueue(songs, save, false, playNext);
      UpdateJukeboxPlaylist();
      SelectFirstAndCheck(env);
    }

    /**
     download() without autoplay, once the songs are queued: the first entry
     becomes current when nothing is, and the downloads are rescheduled.
     */
    method SelectFirstAndCheck(env: Env)
      requires Valid() && downloadList != [] && !shufflePlay
      modifies this
      ensures Valid()
      ensures shufflePlay == old(shufflePlay) && jukeboxEnabled == old(jukeboxEnabled)
      ensures downloadList == old(downloadList) && revision == old(revision)
      ensures currentPlaying == if old(currentPlaying).None? then Some(downloadList[0]) else old(currentPlaying)
      ensures playerState == old(playerState) && bufferTask == old(bufferTask) && playback == old(playback)
      ensures var go := env.storagePresent && env.storageAvailable && !jukeboxEnabled && env.networkConnected;
        var before := old(cleanupCandidates) + StartedHandles(downloadList, currentPlaying, old(currentDownloading), env);
        (go ==>
           currentDownloading == NextDownload(downloadList, currentPlaying, old(currentDownloading), env)
           && cleanupCandidates == Survivors(before, currentPlaying, currentDownloading, env.reclaimable)
           && effects == old(effects)
                + DownloadCalls(downloadList, currentPlaying, old(currentDownloading), env)
                + CleanupCalls(before, currentPlaying, currentDownloading))
        && (!go ==>
              currentDownloading == old(currentDownloading) && cleanupCandidates == old(cleanupCandidates)
              && effects == old(effects))
    {
      if currentPlaying.None? {
        currentPlaying := Some(downloadList[0]);
      }
      CheckDownloads(env);
    }

    /**
     The queue edit of download(songs, save, autoplay, playNext) for a
     non-empty song list; one revision for the whole batch.
     */
    method Enqueue(songs: seq<Song>, save: bool, autoplay: bool, playNext: bool)
      requires Valid() && songs != []
      modifies this`downloadList, this`nextId, this`revision
      ensures Valid()
      ensures downloadList == Enqueued(old(downloadList), currentPlaying, NewHandles(songs, old(nextId), save), autoplay, playNext)
      ensures nextId == old(nextId) + |songs| && revision == old(revision) + 1
    {
      if playNext {
        InsertNext(songs, save, autoplay);
      } else {
        Append(songs, save);
      }
      revision := revision + 1;
    }

    /** download() without playNext: a new handle per song, appended in order. */
    method Append(songs: seq<Song>, save: bool)
      requires Valid()
      modifies this`downloadList, this`nextId
      ensures Valid()
      ensures downloadList == old(downloadList) + NewHandles(songs, old(nextId), save)
      ensures nextId == old(nextId) + |songs|
    {
      ghost var hs := NewHandles(songs, nextId, save);
      var j := 0;
      while j < |songs|
        invariant 0 <= j <= |songs| && nextId == old(nextId) + j
        invariant forall h :: h in downloadList ==> h.id < nextId
        invariant downloadList == old(downloadList) + hs[..j]
      {
        assert hs[..j + 1] == hs[..j] + [hs[j]];
        downloadList := downloadList + [Handle(nextId, songs[j], save)];
        nextId := nextId + 1;
        j := j + 1;
      }
      assert hs[..j] == hs;
    }

    /**
     download() with playNext: the offset starts at 0 when autoplaying with a
     current track in the queue and at 1 otherwise.
     */
    method InsertNext(songs: seq<Song>, save: bool, autoplay: bool)
      requires Valid() && songs != []
      modifies this`downloadList, this`nextId
      ensures Valid()
      ensures downloadList == Enqueued(old(downloadList), currentPlaying, NewHandles(songs, old(nextId), save), autoplay, true)
      ensures nextId == old(nextId) + |songs|
    {
      var offset := 1;
      if autoplay && CurrentIndex(downloadList, currentPlaying) >= 0 {
        offset := 0;
      }
      NextInsertedIds(downloadList, currentPlaying, songs, nextId, save, offset, |songs|);
      NextInsertedDone(downloadList, currentPlaying, NewHandles(songs, nextId, save), autoplay);
      InsertAtOffsets(songs, save, offset);
    }

    /**
     The loop of download() with playNext: each new handle goes in at
     getCurrentPlayingIndex() + offset, the index looked up again before every
     insertion, with offset starting at start and growing by one per song.
     */
    method InsertAtOffsets(songs: seq<Song>, save: bool, start: nat)
      requires Valid() && songs != [] && start <= 1
      requires start == 0 ==> CurrentIndex(downloadList, currentPlaying) >= 0
      modifies this`downloadList, this`nextId
      ensures downloadList == NextInserted(old(downloadList), currentPlaying, NewHandles(songs, old(nextId), save), start, |songs|)
      ensures nextId == old(nextId) + |songs|
    {
      ghost var list := downloadList;
      ghost var cp := currentPlaying;
      ghost var hs := NewHandles(songs, nextId, save);
      NewHandlesFresh(songs, nextId, save);
      assert forall h :: h in hs ==> cp != Some(h);
      var offset := start;
      var j := 0;
      while j < |songs|
        invariant 0 <= j <= |songs| && nextId == old(nextId) + j && offset == start + j
        invariant currentPlaying == cp
        invariant downloadList == NextInserted(list, cp, hs, start, j)
      {
        ghost var q := downloadList;
        ghost var j0 := j;
        var at := CurrentIndex(downloadList, currentPlaying) + offset;
        var h := Handle(nextId, songs[j], save);
        InsertionPoint(list, cp, hs, start, j, q, at);
        downloadList := InsertAt(downloadList, at, h);
        offset := offset + 1;
        nextId := nextId + 1;
        j := j + 1;
        NextInsertedStep(list, cp, hs, start, j0, j, q, at, h, downloadList);
      }
    }

    /** bufferAndPlay(): reset, then start a buffer task for the current track at position 0. */
    method BufferAndPlay(env: Env)
      requires currentPlaying.Some?
      modifies this`bufferTask, this`playback, this`playerState
      ensures playerState == Idle && playback == None
      ensures bufferTask == Some(BufferTask(currentPlaying.value, 0, ExpectedFileSize(0, 0, ByteCount(env.bitRate, env.bufferLength)), false))
    {
      Reset();
      bufferTask := Some(BufferTask(currentPlaying.value, 0, ExpectedFileSize(0, 0, ByteCount(env.bitRate, env.bufferLength)), false));
    }

    /**
     doPlay(h, position, start): hand h to the media engine, from its complete
     file when that is available and otherwise from its partial file, and
     wait for the engine to prepare it.
     */
    method DoPlay(h: Handle, position: Int32, start: bool, env: Env)
      modifies this`playback, this`playerState
      ensures playerState == Preparing
      ensures playback == Some(Playback(h, position, start, h in env.complete))
    {
      playback := Some(Playback(h, position, start, h in env.complete));
      playerState := Preparing;
    }

    /** The engine's prepared listener: start or stop as doPlay was asked, and save the queue. */
    method OnPrepared()
      requires playback.Some?
      modifies this`playerState, this`effects
      ensures playerState == if playback.value.start then Started else Stopped
      ensures effects == old(effects) + [SerializeQueue]
    {
      playerState := Prepared;
      if playback.value.start {
        playerState := Started;
      } else {
        playerState := Stopped;
      }
      effects := effects + [SerializeQueue];
    }

    /**
     The engine's completion listener: a track that was played to its end
     moves the queue on (onSongCompleted); a partial file that stopped early
     is buffered again from the position reached.
     */
    method OnCompletion(env: Env)
      requires Valid() && playback.Some?
      modifies this
      ensures Valid()
      ensures var p := old(playback).value;
        var action := CompletionDecision(p.fromCompleteFile, p.handle.song.durationSeconds, env.enginePosition);
        var i := CurrentIndex(old(downloadList), old(currentPlaying));
        (action.Advance? && i == -1 ==>
           playerState == Completed && downloadList == old(downloadList) && currentPlaying == old(currentPlaying))
        && (action.Advance? && i >= 0 ==>
              (currentPlaying == None <==> env.repeatMode == Off && i == |old(downloadList)| - 1))
        && (action.RestartFrom? ==>
              playerState == Idle && playback == None
              && downloadList == old(downloadList) && currentPlaying == old(currentPlaying)
              && bufferTask == Some(BufferTask(p.handle, action.position,
                   ExpectedFileSize(action.position, env.partialLength, ByteCount(env.bitRate, env.bufferLength)), false)))
    {
      playerState := Completed;
      var p := playback.value;
      match CompletionDecision(p.fromCompleteFile, p.handle.song.durationSeconds, env.enginePosition)
      case Advance =>
        OnSongCompleted(env);
      case RestartFrom(pos) =>
        Reset();
        bufferTask := Some(BufferTask(p.handle, pos, ExpectedFileSize(pos, env.partialLength, ByteCount(env.bitRate, env.bufferLength)), false));
    }

    /**
     BufferTask.execute(): report DOWNLOADING, wait for the buffer, and once it
     is ready play the task's handle from the task's position.
     */
    method RunBufferTask(polls: seq<Poll>, env: Env) returns (o: Outcome)
      requires bufferTask.Some?
      modifies this`playerState, this`playback
      ensures var t := bufferTask.value;
        (o.Ready? ==> o.at < |polls| && Satisfied(polls[o.at], t.expectedFileSize)
                      && playerState == Preparing && playback == Some(Playback(t.handle, t.position, true, t.handle in env.complete)))
        && (!o.Ready? ==> playerState == Downloading && playback == old(playback))
    {
      playerState := Downloading;
      var t := bufferTask.value;
      o := AwaitBuffer(t.expectedFileSize, polls);
      if o.Ready? {
        DoPlay(t.handle, t.position, true, env);
      }
    }

    /**
     setShufflePlayEnabled(enabled): switching shuffle play on empties the
     queue and lets checkDownloads fill it from the shuffle buffer; switching
     it off only clears the flag.
     */
    method SetShufflePlayEnabled(enabled: bool, env: Env)
      requires Valid()
      modifies this
      ensures Valid()
      ensures shufflePlay == enabled
      ensures old(shufflePlay) == enabled ==> unchanged(this)
      ensures old(shufflePlay) && !enabled ==>
        downloadList == old(downloadList) && currentPlaying == old(currentPlaying)
        && currentDownloading == old(currentDownloading) && revision == old(revision)
        && playerState == old(playerState) && effects == old(effects) && nextId == old(nextId)
        && bufferTask == old(bufferTask) && playback == old(playback)
        && cleanupCandidates == old(cleanupCandidates) && cache == old(cache) && shufflePool == old(shufflePool)
        && jukeboxEnabled == old(jukeboxEnabled)
      ensures !old(shufflePlay) && enabled && !(env.storagePresent && env.storageAvailable) ==>
        downloadList == [] && currentPlaying == None && currentDownloading == None && playerState == Idle
      ensures !old(shufflePlay) && enabled && env.storagePresent && env.storageAvailable && old(shufflePool) != [] ==>
        downloadList != [] && currentPlaying == Some(Handle(old(nextId), old(shufflePool)[0], false))
        && PlaybackStarted(env)
    {
      if shufflePlay == enabled {
        return;
      }
      shufflePlay := enabled;
      if shufflePlay {
        Clear(true);
        CheckDownloads(env);
      }
    }

    /**
     setJukeboxEnabled(enabled): record the mode and tell the jukebox; turning
     it on resets local playback and cancels the current download, which
     stays the current download.
     */
    method SetJukeboxEnabled(enabled: bool)
      modifies this`jukeboxEnabled, this`effects, this`bufferTask, this`playback, this`playerState
      ensures jukeboxEnabled == enabled
      ensures effects == old(effects) + [JukeboxEnable(enabled)]
        + (if enabled && currentDownloading.Some? then [CancelDownload(currentDownloading.value)] else [])
      ensures enabled ==>
        playerState == Idle && playback == None
        && bufferTask == if old(bufferTask).Some? then Some(old(bufferTask).value.(cancelled := true)) else None
      ensures !enabled ==> playerState == old(playerState) && playback == old(playback) && bufferTask == old(bufferTask)
    {
      jukeboxEnabled := enabled;
      effects := effects + [JukeboxEnable(enabled)];
      if enabled {
        Reset();
        if currentDownloading.Some? {
          effects := effects + [CancelDownload(currentDownloading.value)];
        }
      }
    }

    /**
     checkShufflePlay(): refill and shift the shuffled queue and, when the
     queue was empty and now is not, start playing its first entry.
     */
    method CheckShufflePlay(env: Env)
      requires Valid()
      modifies this
      decreases if downloadList == [] then 1 else 0, 1
      ensures Valid()
      ensures shufflePlay == old(shufflePlay) && jukeboxEnabled == old(jukeboxEnabled) && cache == old(cache)
      ensures revision >= old(revision) && |downloadList| >= |old(downloadList)|
      ensures old(downloadList) != [] ==>
        currentPlaying == old(currentPlaying) && currentDownloading == old(currentDownloading)
        && cleanupCandidates == old(cleanupCandidates)
        && playerState == old(playerState) && bufferTask == old(bufferTask) && playback == old(playback)
      ensures old(downloadList) != [] ==>
        |downloadList| == |old(downloadList)| + (if |old(downloadList)| < ShuffleListSize
                                                 then Min(ShuffleListSize - |old(downloadList)|, |old(shufflePool)|) else 0)
      ensures old(downloadList) == [] && old(shufflePool) == [] ==> downloadList == [] && unchanged(this)
      ensures old(downloadList) == [] && old(shufflePool) != [] ==>
        downloadList != [] && currentPlaying == Some(Handle(old(nextId), old(shufflePool)[0], false))
        && PlaybackStarted(env)
    {
      var wasEmpty := downloadList == [];
      var added, shifted := TopUp();
      ghost var refilled := old(downloadList) + NewHandles(old(shufflePool)[..added], old(nextId), false);
      assert |downloadList| == |refilled|;
      if wasEmpty {
        assert CurrentIndex(old(downloadList), currentPlaying) == -1 && shifted == 0;
        assert downloadList == refilled;
        if added == 0 {
          assert NewHandles(old(shufflePool)[..0], old(nextId), false) == [];
          assert Cancels(refilled[..0]) == [];
          assert effects == old(effects) && shufflePool == old(shufflePool);
        }
      }
      if wasEmpty && downloadList != [] {
        Play(0, true, env);
      }
    }

    /**
     The queue upkeep of checkShufflePlay: refill the queue, shift it past the
     current track, and tell the jukebox when the revision moved.
     */
    method TopUp() returns (added: nat, shifted: nat)
      requires Valid()
      modifies this`downloadList, this`revision, this`nextId, this`shufflePool, this`effects
      ensures Valid()
      ensures added == if |old(downloadList)| < ShuffleListSize
                       then Min(ShuffleListSize - |old(downloadList)|, |old(shufflePool)|) else 0
      ensures var ci := CurrentIndex(old(downloadList), currentPlaying);
        shifted == if ci > ShiftAfterIndex then Min(ci - 2, |old(shufflePool)| - added) else 0
      ensures var refilled := old(downloadList) + NewHandles(old(shufflePool)[..added], old(nextId), false);
        downloadList == ShiftedQueue(refilled, old(shufflePool)[added..][..shifted], old(nextId) + added, shifted)
        && effects == old(effects) + Cancels(refilled[..shifted])
             + (if jukeboxEnabled && revision != old(revision) then [JukeboxPlaylist] else [])
      ensures revision == old(revision) + added + shifted && nextId == old(nextId) + added + shifted
      ensures shufflePool == old(shufflePool)[added + shifted..]
    {
      var revisionBefore := revision;
      added := Refill();
      RefilledIndex(old(downloadList), old(shufflePool)[..added], old(nextId), currentPlaying);
      shifted := ShiftAndSync(revisionBefore, old(downloadList) + NewHandles(old(shufflePool)[..added], old(nextId), false),
                              old(shufflePool)[added..], old(nextId) + added);
      assert old(shufflePool)[added..][shifted..] == old(shufflePool)[added + shifted..];
    }

    /**
     The rest of checkShufflePlay's upkeep: shift the queue past the current
     track, then tell the jukebox when the revision differs from the one
     seen before the refill. The ghost parameters name the queue, the buffer
     and the counter as the refill left them.
     */
    method ShiftAndSync(revisionBefore: nat, ghost base: seq<Handle>, ghost songs: seq<Song>, ghost firstId: nat)
      returns (shifted: nat)
      requires Valid() && revision >= revisionBefore
      requires downloadList == base && shufflePool == songs && nextId == firstId
      modifies this`downloadList, this`revision, this`nextId, this`shufflePool, this`effects
      ensures Valid()
      ensures var ci := CurrentIndex(base, currentPlaying);
        shifted == if ci > ShiftAfterIndex then Min(ci - 2, |songs|) else 0
      ensures downloadList == ShiftedQueue(base, songs[..shifted], firstId, shifted)
      ensures effects == old(effects) + Cancels(base[..shifted])
             + (if jukeboxEnabled && revision != revisionBefore then [JukeboxPlaylist] else [])
      ensures revision == old(revision) + shifted && nextId == firstId + shifted
      ensures shufflePool == songs[shifted..]
    {
      shifted := ShiftPastCurrent(base, songs, firstId);
      if revision != revisionBefore {
        UpdateJukeboxPlaylist();
      }
    }

    /**
     checkDownloads(): with external storage present, let shuffle play top up
     the queue, then (unless the jukebox is on, the network is down or the
     queue is empty) pick what to download and clean up obsolete files.
     */
    method CheckDownloads(env: Env)
      requires Valid()
      modifies this
      decreases if downloadList == [] then 1 else 0, 2
      ensures Valid()
      ensures shufflePlay == old(shufflePlay) && jukeboxEnabled == old(jukeboxEnabled) && cache == old(cache)
      ensures revision >= old(revision) && |downloadList| >= |old(downloadList)|
      ensures !(env.storagePresent && env.storageAvailable) ==> unchanged(this)
      ensures env.storagePresent && env.storageAvailable && old(shufflePlay) && old(downloadList) == [] && old(shufflePool) != [] ==>
        downloadList != [] && currentPlaying == Some(Handle(old(nextId), old(shufflePool)[0], false))
        && PlaybackStarted(env)
      ensures old(downloadList) != [] ==>
        currentPlaying == old(currentPlaying)
        && playerState == old(playerState) && bufferTask == old(bufferTask) && playback == old(playback)
      ensures !old(shufflePlay) ==>
        downloadList == old(downloadList) && revision == old(revision) && currentPlaying == old(currentPlaying)
        && playerState == old(playerState) && bufferTask == old(bufferTask) && playback == old(playback)
        && nextId == old(nextId) && shufflePool == old(shufflePool)
      ensures !old(shufflePlay) && (jukeboxEnabled || !env.networkConnected || downloadList == []) ==>
        currentDownloading == old(currentDownloading) && cleanupCandidates == old(cleanupCandidates) && effects == old(effects)
      ensures env.storagePresent && env.storageAvailable && !old(shufflePlay)
              && !jukeboxEnabled && env.networkConnected && downloadList != [] ==>
        currentDownloading == NextDownload(downloadList, currentPlaying, old(currentDownloading), env)
        && var before := old(cleanupCandidates) + StartedHandles(downloadList, currentPlaying, old(currentDownloading), env);
           cleanupCandidates == Survivors(before, currentPlaying, currentDownloading, env.reclaimable)
           && effects == old(effects)
                + DownloadCalls(downloadList, currentPlaying, old(currentDownloading), env)
                + CleanupCalls(before, currentPlaying, currentDownloading)
    {
      if !env.storagePresent || !env.storageAvailable {
        return;
      }
      if shufflePlay {
        CheckShufflePlay(env);
      }
      ScheduleIfAllowed(env);
    }

    /** The end of checkDownloads(): no download is chosen with the jukebox on, the network down or an empty queue. */
    method ScheduleIfAllowed(env: Env)
      requires Valid()
      modifies this`currentDownloading, this`cleanupCandidates, this`effects
      ensures Valid()
      ensures jukeboxEnabled || !env.networkConnected || downloadList == [] ==>
        currentDownloading == old(currentDownloading) && cleanupCandidates == old(cleanupCandidates) && effects == old(effects)
      ensures !jukeboxEnabled && env.networkConnected && downloadList != [] ==>
        currentDownloading == NextDownload(downloadList, currentPlaying, old(currentDownloading), env)
        && var before := old(cleanupCandidates) + StartedHandles(downloadList, currentPlaying, old(currentDownloading), env);
           cleanupCandidates == Survivors(before, currentPlaying, currentDownloading, env.reclaimable)
           && effects == old(effects)
                + DownloadCalls(downloadList, currentPlaying, old(currentDownloading), env)
                + CleanupCalls(before, currentPlaying, currentDownloading)
    {
      if jukeboxEnabled || !env.networkConnected || downloadList == [] {
        return;
      }
      ScheduleDownloads(env);
    }

    /**
     play(index, start): an index outside the queue resets playback and
     clears the current track; otherwise the entry becomes current, downloads
     are rescheduled and, when asked to start, the jukebox skips to it or a
     buffer task is started for it.
     */
    method Play(index: int, start: bool, env: Env)
      requires Valid()
      modifies this
      decreases if downloadList == [] then 1 else 0, 3
      ensures Valid()
      ensures shufflePlay == old(shufflePlay) && jukeboxEnabled == old(jukeboxEnabled) && cache == old(cache)
      ensures revision >= old(revision) && |downloadList| >= |old(downloadList)|
      ensures !InQueue(index, |old(downloadList)|) ==>
        currentPlaying == None && playerState == Idle && playback == None
        && bufferTask == (if old(bufferTask).Some? then Some(old(bufferTask).value.(cancelled := true)) else None)
        && downloadList == old(downloadList) && revision == old(revision)
        && currentDownloading == old(currentDownloading) && effects == old(effects)
      ensures InQueue(index, |old(downloadList)|) ==> currentPlaying == Some(old(downloadList)[index])
      ensures InQueue(index, |old(downloadList)|) && !old(shufflePlay) ==> downloadList == old(downloadList) && revision == old(revision)
      ensures InQueue(index, |old(downloadList)|) && !start ==>
        playerState == old(playerState) && bufferTask == old(bufferTask) && playback == old(playback)
      ensures InQueue(index, |old(downloadList)|) && start && jukeboxEnabled ==>
        playerState == Started && |effects| > 0
        && effects[|effects| - 1] == JukeboxSkip(CurrentIndex(downloadList, currentPlaying), 0)
      ensures InQueue(index, |old(downloadList)|) && start && !jukeboxEnabled ==>
        playerState == Idle && playback == None
        && bufferTask == Some(BufferTask(old(downloadList)[index], 0, ExpectedFileSize(0, 0, ByteCount(env.bitRate, env.bufferLength)), false))
      ensures InQueue(index, |old(downloadList)|) && start ==> PlaybackStarted(env)
      ensures InQueue(index, |old(downloadList)|) && !old(shufflePlay) ==>
        var cp := Some(old(downloadList)[index]);
        var go := env.storagePresent && env.storageAvailable && !jukeboxEnabled && env.networkConnected;
        var before := old(cleanupCandidates) + StartedHandles(old(downloadList), cp, old(currentDownloading), env);
        (go ==>
           currentDownloading == NextDownload(old(downloadList), cp, old(currentDownloading), env)
           && cleanupCandidates == Survivors(before, cp, currentDownloading, env.reclaimable)
           && effects == old(effects)
                + DownloadCalls(old(downloadList), cp, old(currentDownloading), env)
                + CleanupCalls(before, cp, currentDownloading))
        && (!go ==>
              currentDownloading == old(currentDownloading) && cleanupCandidates == old(cleanupCandidates)
              && effects == old(effects)
                   + (if start && jukeboxEnabled then [JukeboxSkip(CurrentIndex(downloadList, currentPlaying), 0)] else []))
    {
      if index < 0 || index >= |downloadList| {
        Reset();
        currentPlaying := None;
      } else {
        currentPlaying := Some(downloadList[index]);
        CheckDownloads(env);
        if start {
          if jukeboxEnabled {
            effects := effects + [JukeboxSkip(CurrentIndex(downloadList, currentPlaying), 0)];
            playerState := Started;
          } else {
            BufferAndPlay(env);
          }
        }
      }
    }

    /** play(): resume the current track, or start from the first entry when there is none. */
    method PlayCurrent(env: Env)
      requires Valid()
      modifies this
      ensures Valid()
      ensures var i := CurrentIndex(old(downloadList), old(currentPlaying));
        (old(downloadList) == [] ==> currentPlaying == None && playerState == Idle)
        && (old(downloadList) != [] && i == -1 ==> currentPlaying == Some(old(downloadList)[0]))
        && (i != -1 ==> currentPlaying == old(currentPlaying))
      ensures old(downloadList) != [] ==> PlaybackStarted(env)
      ensures !old(shufflePlay) ==> downloadList == old(downloadList) && revision == old(revision)
    {
      var current := CurrentIndex(downloadList, currentPlaying);
      if current == -1 {
        Play(0, true, env);
      } else {
        Play(current, true, env);
      }
    }

    /** next(): play the entry after the current track; nothing happens without a current track in the queue. */
    method Next(env: Env)
      requires Valid()
      modifies this
      ensures Valid()
      ensures var i := CurrentIndex(old(downloadList), old(currentPlaying));
        (i == -1 ==> unchanged(this))
        && (0 <= i < |old(downloadList)| - 1 ==> currentPlaying == Some(old(downloadList)[i + 1]) && PlaybackStarted(env))
        && (0 <= i == |old(downloadList)| - 1 ==> currentPlaying == None && playerState == Idle)
      ensures !old(shufflePlay) ==> downloadList == old(downloadList) && revision == old(revision)
    {
      var index := CurrentIndex(downloadList, currentPlaying);
      if index != -1 {
        Play(index + 1, true, env);
      }
    }

    /**
     previous(): restart the current track when more than five seconds of it
     were played or it is the first entry, otherwise play the entry before it.
     */
    method Previous(env: Env)
      requires Valid()
      modifies this
      ensures Valid()
      ensures var i := CurrentIndex(old(downloadList), old(currentPlaying));
        (i == -1 ==> unchanged(this))
        && (i >= 0 ==> currentPlaying == Some(old(downloadList)[PreviousIndex(i, PlayerPosition(old(playerState), jukeboxEnabled, env))]))
        && (i > 0 && (old(playerState).Idle? || old(playerState).Downloading? || old(playerState).Preparing?) ==>
              currentPlaying == Some(old(downloadList)[i - 1]))
        && (i >= 0 ==> PlaybackStarted(env))
      ensures !old(shufflePlay) ==> downloadList == old(downloadList) && revision == old(revision)
    {
      var index := CurrentIndex(downloadList, currentPlaying);
      if index == -1 {
        return;
      }
      var position := PlayerPosition(playerState, jukeboxEnabled, env);
      if index > 0 && (playerState.Idle? || playerState.Downloading? || playerState.Preparing?) {
        PreviousBeforePlaybackStepsBack(playerState, jukeboxEnabled, env, index);
      }
      Play(PreviousIndex(index, position), true, env);
    }

    /**
     onSongCompleted(): move on by the repeat mode; playback stops exactly
     when repeat is off and the finished track was the last entry.
     */
    method OnSongCompleted(env: Env)
      requires Valid()
      modifies this
      ensures Valid()
      ensures var i := CurrentIndex(old(downloadList), old(currentPlaying));
        (i == -1 ==> unchanged(this))
        && (i >= 0 ==> (currentPlaying == None <==> env.repeatMode == Off && i == |old(downloadList)| - 1))
        && (i >= 0 && currentPlaying != None ==>
              currentPlaying == Some(old(downloadList)[AdvanceIndex(env.repeatMode, i, |old(downloadList)|)])
              && PlaybackStarted(env))
      ensures !old(shufflePlay) ==> downloadList == old(downloadList) && revision == old(revision)
    {
      var index := CurrentIndex(downloadList, currentPlaying);
      if index != -1 {
        AdvanceStopsOnlyAtEnd(env.repeatMode, index, |downloadList|);
        Play(AdvanceIndex(env.repeatMode, index, |downloadList|), true, env);
      }
    }

    /** pause(): a started player is stopped (the jukebox or the engine) and paused, which saves the queue. */
    method Pause()
      modifies this`playerState, this`effects
      ensures old(playerState) == Started ==>
        playerState == Paused && effects == old(effects) + (if jukeboxEnabled then [JukeboxStop] else []) + [SerializeQueue]
      ensures old(playerState) != Started ==> playerState == old(playerState) && effects == old(effects)
    {
      if playerState == Started {
        if jukeboxEnabled {
          effects := effects + [JukeboxStop];
        }
        playerState := Paused;
        effects := effects + [SerializeQueue];
      }
    }

    /** start(): start the jukebox or the engine, whatever the state. */
    method Start()
      modifies this`playerState, this`effects
      ensures playerState == Started
      ensures effects == old(effects) + if jukeboxEnabled then [JukeboxStart] else []
    {
      if jukeboxEnabled {
        effects := effects + [JukeboxStart];
      }
      playerState := Started;
    }

    /** togglePlayPause(): resume a paused or completed player, play from a stopped or idle one, pause a started one. */
    method TogglePlayPause(env: Env)
      requires Valid()
      modifies this
      ensures Valid()
      ensures old(playerState).Paused? || old(playerState).Completed? ==> playerState == Started
      ensures old(playerState).Started? ==> playerState == Paused
      ensures old(playerState).Downloading? || old(playerState).Preparing? || old(playerState).Prepared? ==> unchanged(this)
      ensures (old(playerState).Stopped? || old(playerState).Idle?) && old(downloadList) != [] ==>
        currentPlaying != None
    {
      match Toggle(playerState)
      case StartEngine => Start();
      case PlayQueue => PlayCurrent(env);
      case PauseEngine => Pause();
      case NoAction =>
    }

    /**
     forSong(song): the first queued handle for song; failing that the cached
     one, and failing that a new unpinned handle, which is then cached.
     */
    method ForSong(song: Song) returns (h: Handle)
      requires Valid()
      modifies this`cache, this`nextId
      ensures Valid()
      ensures h.song == song
      ensures var i := FirstWithSong(downloadList, song);
        i >= 0 ==> h == downloadList[i] && cache == old(cache) && nextId == old(nextId)
      ensures FirstWithSong(downloadList, song) == -1 ==>
        h == LookupCache.CachedHandle(old(cache), old(nextId), song).0
        && cache == LookupCache.CachedHandle(old(cache), old(nextId), song).1
        && nextId == old(nextId) + if LookupCache.Get(old(cache), song).0.None? then 1 else 0
    {
      var i := 0;
      while i < |downloadList|
        invariant 0 <= i <= |downloadList|
        invariant forall k :: 0 <= k < i ==> downloadList[k].song != song
      {
        if downloadList[i].song == song {
          return downloadList[i];
        }
        i := i + 1;
      }
      h := FromCache(song);
    }

    /** The second half of forSong(song): the cached handle, or a new unpinned one that is then cached. */
    method FromCache(song: Song) returns (h: Handle)
      requires Valid()
      modifies this`cache, this`nextId
      ensures Valid()
      ensures h.song == song
      ensures (h, cache) == LookupCache.CachedHandle(old(cache), old(nextId), song)
      ensures nextId == old(nextId) + if LookupCache.Get(old(cache), song).0.None? then 1 else 0
    {
      var lookup := LookupCache.Get(cache, song);
      if lookup.0.Some? {
        h := lookup.0.value;
        cache := lookup.1;
      } else {
        h := Handle(nextId, song, false);
        cache := LookupCache.Put(lookup.1, song, h);
        nextId := nextId + 1;
      }
    }
  }

  /** shuffle()'s remove(index) then add(0, track) puts the track first and keeps every handle. */
  lemma MovedToFront(s: seq<Handle>, x: Handle)
    requires x in s
    ensures var moved := InsertAt(RemoveAt(s, CurrentIndex(s, Some(x))), 0, x);
      multiset(moved) == multiset(s) && |moved| > 0 && moved[0] == x
      && (forall h :: h in moved <==> h in s)
  {
    MoveToFrontPermutes(s, x);
    SameMembers(InsertAt(RemoveFirst(s, x), 0, x), s);
  }

  /** Handles appended with fresh ids do not change where the current track is found. */
  lemma RefilledIndex(s: seq<Handle>, songs: seq<Song>, firstId: nat, cp: Option<Handle>)
    requires cp.Some? ==> cp.value.id < firstId
    ensures CurrentIndex(s + NewHandles(songs, firstId, false), cp) == CurrentIndex(s, cp)
  {
    var t := NewHandles(songs, firstId, false);
    if cp.Some? {
      if cp.value in s {
        IndexOfAppend(s, t, cp.value);
      } else {
        forall i | 0 <= i < |t| ensures t[i] != cp.value {
          assert t[i].id >= firstId;
        }
        assert cp.value !in s + t;
      }
    }
  }

  /** Shifting m handles in front of the current track moves it m places to the left. */
  lemma ShiftedIndex(base: seq<Handle>, songs: seq<Song>, firstId: nat, m: nat, x: Handle, q: seq<Handle>)
    requires m <= |songs| && x in base && m <= IndexOf(base, x)
    requires q == ShiftedQueue(base, songs, firstId, m)
    ensures IndexOf(q, x) == IndexOf(base, x) - m
  {
    var t := NewHandles(songs[..m], firstId, false);
    IndexOfAppend(base, t, x);
    IndexOfDropFront(base + t, m, x);
  }
}
