/**
 Index arithmetic of the playback controls: which queue position play()
 receives from onSongCompleted (by repeat mode), from previous() (the
 five-second restart rule) and from next(), and what getPlayerPosition
 reports.
 */
module Navigation {

  import opened Domain
  import BufferGate

  /** previous() restarts the track instead when more than this many milliseconds have been played. */
  const RestartThresholdMillis: int := 5000

  /** A play(index) argument that names a track; any other index stops playback. */
  predicate InQueue(index: int, size: nat)
  {
    0 <= index < size
  }

  /** The index onSongCompleted passes to play(), by repeat mode, for the current track at index. */
  function AdvanceIndex(mode: RepeatMode, index: nat, size: nat): (r: int)
    requires index < size
  {
    match mode
    case Off => index + 1
    case All => (index + 1) % size
    case Single => index
  }

  /**
   After a track completes, playback stops (play() gets an index outside the
   queue) exactly when repeat is off and the track was the last one; with
   repeat all the last track wraps to the first, with repeat single the same
   track plays again, and otherwise the following track plays.
   */
  lemma AdvanceStopsOnlyAtEnd(mode: RepeatMode, index: nat, size: nat)
    requires index < size
    ensures !InQueue(AdvanceIndex(mode, index, size), size) <==> mode == Off && index == size - 1
    ensures mode == All && index == size - 1 ==> AdvanceIndex(mode, index, size) == 0
    ensures mode == Single ==> AdvanceIndex(mode, index, size) == index
    ensures mode != Single && index < size - 1 ==> AdvanceIndex(mode, index, size) == index + 1
  {
    if mode == All {
      if index + 1 == size {
        assert (index + 1) % size == 0;
      } else {
        assert (index + 1) % size == index + 1;
      }
    }
  }

  /** previous(): restart the current track when more than five seconds were played or it is the first; else go back one. */
  function PreviousIndex(index: nat, positionMillis: int): (r: nat)
    ensures r <= index <= r + 1
  {
    if positionMillis > RestartThresholdMillis || index == 0 then index else index - 1
  }

  /**
   getPlayerPosition(): 0 while nothing is loaded in the engine, else the
   jukebox's or the engine's position in milliseconds (the jukebox's seconds
   times 1000 in 32-bit arithmetic).
   */
  function PlayerPosition(state: PlayerState, jukeboxEnabled: bool, env: Env): int
  {
    if state == Idle || state == Downloading || state == Preparing then 0
    else if jukeboxEnabled then BufferGate.Wrap(env.jukeboxPositionSeconds * 1000)
    else env.enginePosition
  }

  /**
   What getPlayerPosition reports: 0 before the engine has a track, the
   engine's own position, or the jukebox's position in milliseconds, which is
   exact up to 2147483 seconds and wraps to a different value beyond that.
   */
  lemma PlayerPositionMillis(state: PlayerState, jukeboxEnabled: bool, env: Env)
    ensures state.Idle? || state.Downloading? || state.Preparing? ==> PlayerPosition(state, jukeboxEnabled, env) == 0
    ensures var loaded := !(state.Idle? || state.Downloading? || state.Preparing?);
      (loaded && !jukeboxEnabled ==> PlayerPosition(state, jukeboxEnabled, env) == env.enginePosition)
      && (loaded && jukeboxEnabled && 0 <= env.jukeboxPositionSeconds <= 2147483 ==>
            PlayerPosition(state, jukeboxEnabled, env) == env.jukeboxPositionSeconds * 1000)
      && (loaded && jukeboxEnabled && env.jukeboxPositionSeconds > 2147483 ==>
            PlayerPosition(state, jukeboxEnabled, env) != env.jukeboxPositionSeconds * 1000)
  {
  }

  /** A track that is still downloading or preparing cannot have played five seconds, so previous() steps back. */
  lemma PreviousBeforePlaybackStepsBack(state: PlayerState, jukeboxEnabled: bool, env: Env, index: nat)
    requires (state.Idle? || state.Downloading? || state.Preparing?) && index > 0
    ensures PreviousIndex(index, PlayerPosition(state, jukeboxEnabled, env)) == index - 1
  {
  }

  /** What togglePlayPause() does in each player state. */
  datatype ToggleAction = StartEngine | PlayQueue | PauseEngine | NoAction

  function Toggle(state: PlayerState): (a: ToggleAction)
    ensures a == StartEngine <==> state.Paused? || state.Completed?
    ensures a == PlayQueue <==> state.Stopped? || state.Idle?
    ensures a == PauseEngine <==> state.Started?
    ensures a == NoAction <==> state.Downloading? || state.Preparing? || state.Prepared?
  {
    if state == Paused || state == Completed then StartEngine
    else if state == Stopped || state == Idle then PlayQueue
    else if state == Started then PauseEngine
    else NoAction
  }
}
