/**
 The entities the download service works with, and the answers it gets from
 collaborators that are not part of this model (the DownloadFile's own file
 bookkeeping, the storage and network probes, the preferences, the media
 engine's position).
 */
module Domain {

  import Seqs
  import BufferGate

  /** A song as the server describes it (MusicDirectory.Entry), reduced to what the core reads. */
  datatype Song = Song(id: string, durationSeconds: Seqs.Option<BufferGate.Int32>)

  /**
   A DownloadFile. `id` stands for the object's identity: the service never
   hands out the same id twice, so two handles are `==` exactly when they are
   the same object. `save` is the pin flag given at construction
   (`shouldSave`).
   */
  datatype Handle = Handle(id: nat, song: Song, save: bool)

  /** PlayerState. */
  datatype PlayerState = Idle | Downloading | Preparing | Prepared | Started | Stopped | Paused | Completed

  /** RepeatMode, read from the preferences. */
  datatype RepeatMode = Off | All | Single

  /** Calls the service makes on collaborators, recorded in the order they happen. */
  datatype Effect =
    | StartDownload(h: Handle)        // DownloadFile.download()
    | CancelDownload(h: Handle)       // DownloadFile.cancelDownload()
    | CleanupFiles(h: Handle)         // DownloadFile.cleanup()
    | SerializeQueue                  // lifecycleSupport.serializeDownloadQueue()
    | JukeboxPlaylist                 // jukeboxService.updatePlaylist()
    | JukeboxSkip(index: int, seconds: int)
    | JukeboxStart
    | JukeboxStop
    | JukeboxEnable(enabled: bool)    // jukeboxService.setEnabled()

  /**
   What the collaborators answer during one call of the service:
   which handles have their complete file (`isCompleteFileAvailable`), have
   finished their work (`isWorkDone`), have failed (`isFailed`), and which
   would delete their files when asked (`cleanup()` returning true); whether
   external storage is present and available and the network connected; the
   preload count and repeat mode preferences; the media engine's and the
   jukebox's playback positions; and the bit rate and buffer length of the
   handle about to be buffered.
   */
  datatype Env = Env(
    storagePresent: bool,
    storageAvailable: bool,
    networkConnected: bool,
    preloadCount: int,
    repeatMode: RepeatMode,
    complete: set<Handle>,
    workDone: set<Handle>,
    failed: set<Handle>,
    reclaimable: set<Handle>,
    enginePosition: BufferGate.Int32,
    jukeboxPositionSeconds: BufferGate.Int32,
    bitRate: BufferGate.Int32,
    bufferLength: BufferGate.Int32,
    partialLength: int)
}
