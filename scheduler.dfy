/**
 The download scheduler of checkDownloads: the current track has priority;
 otherwise, when no download is active or the active one is done or failed,
 a circular scan from the current track picks the next handle to download,
 with look-ahead bounded by the preload count.
 */
module Scheduler {

  import opened Seqs
  import opened Domain

  /** Position reached after k steps of the circular scan from start: one wrap past the end at most, back at start after a full turn. */
  function Pos(start: nat, k: nat, n: nat): (i: nat)
    requires start < n && k <= n
    ensures i == (start + k) % n
    ensures k < n ==> i < n
    ensures k == n ==> i == start
    ensures 0 < k < n ==> i != start
  {
    ModOnce(start + k, n);
    if start + k < n then start + k else start + k - n
  }

  /** Below 2n, the remainder by n takes n away at most once. */
  lemma ModOnce(x: nat, n: nat)
    requires 0 < n && x < 2 * n
    ensures x % n == if x < n then x else x - n
  {
    if x >= n {
      assert (x - n) % n == x % n;
    }
  }

  /** Java's `(i + 1) % n` on a valid index wraps to 0 only at the end. */
  lemma WrapNext(i: nat, n: nat)
    requires i < n
    ensures (i + 1) % n == if i + 1 < n then i + 1 else 0
  {
    if i + 1 == n {
      assert (i + 1) % n == n % n == 0;
    }
  }

  /** The step of the scan at which position i is visited. */
  function StepOf(start: nat, i: nat, n: nat): (k: nat)
    requires start < n && i < n
    ensures k < n && Pos(start, k, n) == i
  {
    if start <= i then i - start else i + n - start
  }

  /**
   The scan's `preloaded` counter after k steps: how many of the handles
   visited so far had finished their work and were not the current track.
   */
  function PassedDone(list: seq<Handle>, start: nat, cp: Option<Handle>, done: set<Handle>, k: nat): (c: nat)
    requires start < |list| && k <= |list|
    ensures c <= k
  {
    if k == 0 then 0
    else
      var h := list[Pos(start, k - 1, |list|)];
      PassedDone(list, start, cp, done, k - 1) + (if h in done && cp != Some(h) then 1 else 0)
  }

  /** Whether the handle visited at step k is taken: it is not done, and it is pinned or the look-ahead is not used up. */
  predicate Qualifies(list: seq<Handle>, start: nat, cp: Option<Handle>, done: set<Handle>, preloadCount: int, k: nat)
    requires start < |list| && k < |list|
  {
    var h := list[Pos(start, k, |list|)];
    h !in done && (h.save || PassedDone(list, start, cp, done, k) < preloadCount)
  }

  /** The scan's result as a function: the position of the first qualifying step at or after step k. */
  function FirstQualifying(list: seq<Handle>, start: nat, cp: Option<Handle>, done: set<Handle>, preloadCount: int, k: nat): (r: Option<nat>)
    requires start < |list| && k <= |list|
    decreases |list| - k
  {
    if k == |list| then None
    else if Qualifies(list, start, cp, done, preloadCount, k) then Some(Pos(start, k, |list|))
    else FirstQualifying(list, start, cp, done, preloadCount, k + 1)
  }

  /**
   FirstQualifying finds the earliest qualifying step: the position it
   returns qualifies and no step before it does, and when it finds nothing,
   no step from k on qualifies.
   */
  lemma {:induction false} FirstQualifyingIsFirst(list: seq<Handle>, start: nat, cp: Option<Handle>, done: set<Handle>, preloadCount: int, k: nat)
    requires start < |list| && k <= |list|
    ensures var r := FirstQualifying(list, start, cp, done, preloadCount, k);
      match r
      case None => forall j :: k <= j < |list| ==> !Qualifies(list, start, cp, done, preloadCount, j)
      case Some(i) =>
        i < |list| && k <= StepOf(start, i, |list|)
        && Qualifies(list, start, cp, done, preloadCount, StepOf(start, i, |list|))
        && forall j :: k <= j < StepOf(start, i, |list|) ==> !Qualifies(list, start, cp, done, preloadCount, j)
    decreases |list| - k
  {
    if k < |list| && !Qualifies(list, start, cp, done, preloadCount, k) {
      FirstQualifyingIsFirst(list, start, cp, done, preloadCount, k + 1);
    }
  }

  /**
   The do-while scan of checkDownloads. It visits each position once,
   starting at `start` and wrapping around; `i` returns to `start` after
   exactly n steps, which is when the source's loop ends.
   */
  method CircularScan(list: seq<Handle>, start: nat, cp: Option<Handle>, done: set<Handle>, preloadCount: int)
    returns (pick: Option<nat>)
    requires start < |list|
    ensures pick == FirstQualifying(list, start, cp, done, preloadCount, 0)
    ensures pick.Some? ==> pick.value < |list| && list[pick.value] !in done
  {
    var n := |list|;
    var preloaded := 0;
    var i := start;
    var k := 0;
    while k < n
      invariant 0 <= k <= n && i == Pos(start, k, n)
      invariant preloaded == PassedDone(list, start, cp, done, k)
      invariant FirstQualifying(list, start, cp, done, preloadCount, 0) == FirstQualifying(list, start, cp, done, preloadCount, k)
    {
      var h := list[i];
      if h !in done {
        if h.save || preloaded < preloadCount {
          return Some(i);
        }
      } else if cp != Some(h) {
        preloaded := preloaded + 1;
      }
      WrapNext(i, n);
      i := (i + 1) % n;
      k := k + 1;
    }
    return None;
  }

  /** The preloaded tally never decreases along the scan. */
  lemma {:induction false} PassedDoneMonotone(list: seq<Handle>, start: nat, cp: Option<Handle>, done: set<Handle>, j: nat, k: nat)
    requires start < |list| && j <= k <= |list|
    ensures PassedDone(list, start, cp, done, j) <= PassedDone(list, start, cp, done, k)
    decreases k - j
  {
    if j < k {
      PassedDoneMonotone(list, start, cp, done, j, k - 1);
    }
  }

  /**
   Bounded look-ahead: once the tally of done, non-current handles has reached
   the preload count, no later unpinned handle is ever taken.
   */
  lemma PreloadWindowCloses(list: seq<Handle>, start: nat, cp: Option<Handle>, done: set<Handle>, preloadCount: int, j: nat, k: nat)
    requires start < |list| && j <= k < |list|
    requires PassedDone(list, start, cp, done, j) >= preloadCount
    requires !list[Pos(start, k, |list|)].save
    ensures !Qualifies(list, start, cp, done, preloadCount, k)
  {
    PassedDoneMonotone(list, start, cp, done, j, k);
  }

  /**
   The scan as written starts at `currentPlaying == null ? 0 :
   getCurrentPlayingIndex()`, which is -1 when the current track is no longer
   in the queue.
   */
  function ScanStartAsWritten(list: seq<Handle>, cp: Option<Handle>): (r: int)
    ensures r == -1 <==> cp.Some? && cp.value !in list
  {
    if cp.None? then 0 else IndexOf(list, cp.value)
  }

  /** A current track that has left the queue makes the scan start at -1, which `downloadList.get` rejects. */
  lemma ScanStartAsWrittenOutOfRange(list: seq<Handle>, h: Handle)
    requires h !in list
    ensures ScanStartAsWritten(list, Some(h)) < 0
  {
  }

  /** The scan start used by the model: the current track's index, or 0 when there is none in the queue. */
  function ScanStart(list: seq<Handle>, cp: Option<Handle>): (r: nat)
    requires |list| > 0
    ensures r < |list|
    ensures cp.Some? && cp.value in list ==> list[r] == cp.value && r == ScanStartAsWritten(list, cp)
    ensures cp.None? ==> r == 0
  {
    var k := ScanStartAsWritten(list, cp);
    if k < 0 then 0 else k
  }

  /** The choice checkDownloads makes once its guards have passed. */
  datatype Decision =
    | Preempt(h: Handle)    // the current track takes over the single download slot
    | Pick(index: nat)      // the scan chose the handle at this position
    | Keep                  // currentDownloading stays as it is

  predicate IsDone(h: Handle, env: Env)
  {
    h in env.workDone || h in env.failed
  }

  /** The decision checkDownloads takes for a non-empty queue once storage, network and jukebox mode allow downloading. */
  function Decide(list: seq<Handle>, cp: Option<Handle>, cd: Option<Handle>, env: Env): (d: Decision)
    requires |list| > 0
    ensures d.Preempt? <==> cp.Some? && cp != cd && cp.value !in env.complete
    ensures d.Preempt? ==> d.h == cp.value
    ensures d.Pick? ==> d.index < |list| && list[d.index] !in env.workDone
    ensures d.Pick? ==> cd.None? || IsDone(cd.value, env)
  {
    if cp.Some? && cp != cd && cp.value !in env.complete then Preempt(cp.value)
    else if cd.None? || IsDone(cd.value, env) then
      var start := ScanStart(list, cp);
      var r := FirstQualifying(list, start, cp, env.workDone, env.preloadCount, 0);
      FirstQualifyingIsFirst(list, start, cp, env.workDone, env.preloadCount, 0);
      if r.Some? then Pick(r.value) else Keep
    else Keep
  }

  /**
   When the current track is already complete (or already downloading) and the
   slot is free, a handle is chosen exactly when some step of the scan from the
   current track qualifies; the one chosen is the earliest such.
   */
  lemma ScanDecision(list: seq<Handle>, cp: Option<Handle>, cd: Option<Handle>, env: Env)
    requires |list| > 0
    requires !(cp.Some? && cp != cd && cp.value !in env.complete)
    requires cd.None? || IsDone(cd.value, env)
    ensures var start := ScanStart(list, cp);
      var d := Decide(list, cp, cd, env);
      (d.Keep? <==> forall k :: 0 <= k < |list| ==> !Qualifies(list, start, cp, env.workDone, env.preloadCount, k))
      && (d.Pick? ==>
            var k := StepOf(start, d.index, |list|);
            Qualifies(list, start, cp, env.workDone, env.preloadCount, k)
            && forall j :: 0 <= j < k ==> !Qualifies(list, start, cp, env.workDone, env.preloadCount, j))
  {
    var start := ScanStart(list, cp);
    FirstQualifyingIsFirst(list, start, cp, env.workDone, env.preloadCount, 0);
    var d := Decide(list, cp, cd, env);
    if d.Keep? {
    } else {
      assert d.Pick?;
    }
  }

  /**
   The current track comes first: when it is in the queue and not yet done,
   and the preload count is positive or the track is pinned, a free slot
   goes to it.
   */
  lemma CurrentTrackFirst(list: seq<Handle>, cp: Handle, cd: Option<Handle>, env: Env)
    requires cp in list && cp !in env.workDone
    requires env.preloadCount > 0 || cp.save
    requires cd.None? || IsDone(cd.value, env)
    ensures Decide(list, Some(cp), cd, env) == Preempt(cp)
         || Decide(list, Some(cp), cd, env) == Pick(IndexOf(list, cp))
  {
    var start := ScanStart(list, Some(cp));
    assert Qualifies(list, start, Some(cp), env.workDone, env.preloadCount, 0);
  }

  /** The handle that holds the download slot after the decision. */
  function NextDownload(list: seq<Handle>, cp: Option<Handle>, cd: Option<Handle>, env: Env): (r: Option<Handle>)
    requires |list| > 0
  {
    match Decide(list, cp, cd, env)
    case Preempt(h) => Some(h)
    case Pick(i) => Some(list[i])
    case Keep => cd
  }

  /** The handle added to the cleanup candidates when the decision starts a download. */
  function StartedHandles(list: seq<Handle>, cp: Option<Handle>, cd: Option<Handle>, env: Env): (r: seq<Handle>)
    requires |list| > 0
  {
    match Decide(list, cp, cd, env)
    case Preempt(h) => [h]
    case Pick(i) => [list[i]]
    case Keep => []
  }

  /** The download calls the decision makes: a pre-empted download is cancelled before the current track starts. */
  function DownloadCalls(list: seq<Handle>, cp: Option<Handle>, cd: Option<Handle>, env: Env): (r: seq<Effect>)
    requires |list| > 0
  {
    match Decide(list, cp, cd, env)
    case Preempt(h) => (if cd.Some? then [CancelDownload(cd.value)] else []) + [StartDownload(h)]
    case Pick(i) => [StartDownload(list[i])]
    case Keep => []
  }

  /**
   Single flight: a pass either leaves the download slot alone and calls
   nothing, or starts exactly one download, for the new holder of the slot,
   whose previous holder was absent, had finished its work or failed, or was
   cancelled first. A failed download may be chosen again.
   */
  lemma SingleFlight(list: seq<Handle>, cp: Option<Handle>, cd: Option<Handle>, env: Env)
    requires |list| > 0
    ensures var next := NextDownload(list, cp, cd, env);
      var calls := DownloadCalls(list, cp, cd, env);
      (calls == [] ==> next == cd)
      && (calls != [] ==>
            next.Some? && calls[|calls| - 1] == StartDownload(next.value)
            && (forall j :: 0 <= j < |calls| - 1 ==> !calls[j].StartDownload?)
            && (cd.None? || IsDone(cd.value, env) || calls[0] == CancelDownload(cd.value)))
  {
  }
}
