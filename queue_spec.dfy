/**
 Specification functions for the queue edits of the download service: the
 handles an enqueue creates, where playNext puts them, what clearIncomplete
 keeps, and what cleanup keeps and asks to delete. The service's methods are
 proved to produce exactly these values.
 */
module QueueSpec {

  import opened Seqs
  import opened Domain

  /** getCurrentPlayingIndex(): indexOf(currentPlaying); the queue holds no null, so a null current track gives -1. */
  function CurrentIndex(list: seq<Handle>, cp: Option<Handle>): (r: int)
    ensures -1 <= r < |list|
    ensures r == -1 <==> cp.None? || cp.value !in list
    ensures r >= 0 ==> list[r] == cp.value
  {
    if cp.None? then -1 else IndexOf(list, cp.value)
  }

  /** The position of the first handle in the queue for song, or -1 when none is: where forSong's scan stops. */
  function FirstWithSong(list: seq<Handle>, song: Song): (r: int)
    ensures -1 <= r < |list|
    ensures r == -1 <==> forall i :: 0 <= i < |list| ==> list[i].song != song
    ensures r >= 0 ==> list[r].song == song && forall i :: 0 <= i < r ==> list[i].song != song
  {
    if |list| == 0 then -1
    else if list[0].song == song then 0
    else
      var r := FirstWithSong(list[1..], song);
      if r == -1 then -1 else r + 1
  }

  /** The handles `new DownloadFile(song, save)` creates for songs, one per song, with consecutive fresh ids. */
  function NewHandles(songs: seq<Song>, firstId: nat, save: bool): (hs: seq<Handle>)
    ensures |hs| == |songs|
    ensures forall i :: 0 <= i < |hs| ==> hs[i] == Handle(firstId + i, songs[i], save)
  {
    seq(|songs|, i requires 0 <= i < |songs| => Handle(firstId + i, songs[i], save))
  }

  /**
   Fresh handles: the new handles are pairwise distinct objects, created in
   the order of the songs, and none of them is a handle created before, since
   every id they take is at least firstId and below the advanced counter.
   */
  lemma NewHandlesFresh(songs: seq<Song>, firstId: nat, save: bool)
    ensures var hs := NewHandles(songs, firstId, save);
      (forall i, j :: 0 <= i < j < |hs| ==> hs[i].id < hs[j].id)
      && (forall h :: h in hs ==> firstId <= h.id < firstId + |songs|)
  {
    var hs := NewHandles(songs, firstId, save);
    forall h | h in hs ensures firstId <= h.id < firstId + |songs| {
      var i :| 0 <= i < |hs| && hs[i] == h;
    }
  }

  /** s with t spliced in at position pos. */
  function Spliced(s: seq<Handle>, pos: nat, t: seq<Handle>): (r: seq<Handle>)
    requires pos <= |s|
    ensures |r| == |s| + |t|
    ensures multiset(r) == multiset(s) + multiset(t)
  {
    var r := seq(|s| + |t|, j requires 0 <= j < |s| + |t| =>
      if j < pos then s[j] else if j < pos + |t| then t[j - pos] else s[j - |t|]);
    assert r == s[..pos] + t + s[pos..];
    assert s == s[..pos] + s[pos..];
    r
  }

  /** One more insertion right after a spliced block extends the block. */
  lemma SplicedStep(s: seq<Handle>, pos: nat, t: seq<Handle>, h: Handle)
    requires pos <= |s|
    ensures InsertAt(Spliced(s, pos, t), pos + |t|, h) == Spliced(s, pos, t + [h])
  {
    var r := Spliced(s, pos, t);
    assert r[..pos + |t|] == s[..pos] + t;
    assert r[pos + |t|..] == s[pos..];
  }

  /** Splicing after the first occurrence of x does not move it. */
  lemma CurrentIndexAfterSplice(s: seq<Handle>, pos: nat, t: seq<Handle>, cp: Option<Handle>)
    requires pos <= |s| && CurrentIndex(s, cp) < pos
    requires forall h :: h in t ==> cp != Some(h)
    ensures CurrentIndex(Spliced(s, pos, t), cp) == CurrentIndex(s, cp)
  {
    var r := Spliced(s, pos, t);
    if cp.Some? {
      var x := cp.value;
      if x in s {
        var k := IndexOf(s, x);
        assert r[k] == x;
        forall j | 0 <= j < k ensures r[j] != x {
          assert r[j] == s[j] && s[j] in s[..k];
        }
        IndexOfIsFirst(r, x, k);
      } else {
        assert forall j :: 0 <= j < |r| ==> r[j] in s || r[j] in t by {
          forall j | 0 <= j < |r| ensures r[j] in s || r[j] in t {
            if j < pos { assert r[j] == s[j]; }
            else if j < pos + |t| { assert r[j] == t[j - pos]; }
            else { assert r[j] == s[j - |t|]; }
          }
        }
      }
    }
  }

  /** The handles of s whose complete file is available, in their original order (clearIncomplete). */
  function KeepComplete(s: seq<Handle>, complete: set<Handle>): (r: seq<Handle>)
  {
    if s == [] then []
    else KeepComplete(s[..|s| - 1], complete) + (if s[|s| - 1] in complete then [s[|s| - 1]] else [])
  }

  /** clearIncomplete keeps exactly the complete handles, each as often as it occurred. */
  lemma {:induction false} KeepCompleteContents(s: seq<Handle>, complete: set<Handle>)
    ensures forall h :: h in KeepComplete(s, complete) <==> h in s && h in complete
    ensures forall h :: h in complete ==> multiset(KeepComplete(s, complete))[h] == multiset(s)[h]
    ensures |KeepComplete(s, complete)| <= |s|
  {
    if s != [] {
      var init := s[..|s| - 1];
      assert s == init + [s[|s| - 1]];
      KeepCompleteContents(init, complete);
    }
  }

  /** clearIncomplete keeps relative order: filtering a concatenation filters each part. */
  lemma {:induction false} KeepCompleteConcat(s: seq<Handle>, t: seq<Handle>, complete: set<Handle>)
    ensures KeepComplete(s + t, complete) == KeepComplete(s, complete) + KeepComplete(t, complete)
    decreases |t|
  {
    if t != [] {
      var init := t[..|t| - 1];
      assert s + t == (s + init) + [t[|t| - 1]];
      assert (s + t)[..|s + t| - 1] == s + init;
      KeepCompleteConcat(s, init, complete);
    } else {
      assert s + t == s;
    }
  }

  /** A current track whose file is incomplete leaves the queue under clearIncomplete, which does not clear the pointer. */
  lemma IncompleteCurrentGoesStale(s: seq<Handle>, complete: set<Handle>, cp: Handle)
    requires cp in s && cp !in complete
    ensures CurrentIndex(KeepComplete(s, complete), Some(cp)) == -1
  {
    KeepCompleteContents(s, complete);
  }

  /** A cleanup candidate that cleanup() leaves alone: the current track or the current download. */
  predicate Protected(h: Handle, cp: Option<Handle>, cd: Option<Handle>)
  {
    cp == Some(h) || cd == Some(h)
  }

  /** The candidates cleanup() keeps: protected ones, and those whose own cleanup() returned false. */
  function Survivors(cands: seq<Handle>, cp: Option<Handle>, cd: Option<Handle>, reclaimable: set<Handle>): (r: seq<Handle>)
  {
    if cands == [] then []
    else
      var h := cands[|cands| - 1];
      Survivors(cands[..|cands| - 1], cp, cd, reclaimable)
        + (if Protected(h, cp, cd) || h !in reclaimable then [h] else [])
  }

  /** The DownloadFile.cleanup() calls cleanup() makes: one per unprotected candidate, in order. */
  function CleanupCalls(cands: seq<Handle>, cp: Option<Handle>, cd: Option<Handle>): (r: seq<Effect>)
  {
    if cands == [] then []
    else
      var h := cands[|cands| - 1];
      CleanupCalls(cands[..|cands| - 1], cp, cd) + (if Protected(h, cp, cd) then [] else [CleanupFiles(h)])
  }

  /**
   cleanup() never reclaims the playing or the downloading handle: every
   occurrence of them stays a candidate and no cleanup() call goes to them;
   a candidate leaves the list only when it is unprotected and its cleanup()
   returned true.
   */
  lemma {:induction false} CleanupSpareProtected(cands: seq<Handle>, cp: Option<Handle>, cd: Option<Handle>, reclaimable: set<Handle>)
    ensures forall h :: Protected(h, cp, cd) ==> multiset(Survivors(cands, cp, cd, reclaimable))[h] == multiset(cands)[h]
    ensures forall h :: Protected(h, cp, cd) ==> CleanupFiles(h) !in CleanupCalls(cands, cp, cd)
    ensures forall h :: h in cands && h !in Survivors(cands, cp, cd, reclaimable) ==> !Protected(h, cp, cd) && h in reclaimable
    ensures forall h :: h in Survivors(cands, cp, cd, reclaimable) ==> h in cands
  {
    if cands != [] {
      var init := cands[..|cands| - 1];
      assert cands == init + [cands[|cands| - 1]];
      CleanupSpareProtected(init, cp, cd, reclaimable);
    }
  }

  /** The cancelDownload() calls checkShufflePlay makes on the handles it shifts out of the queue. */
  function Cancels(hs: seq<Handle>): (r: seq<Effect>)
    ensures |r| == |hs|
    ensures forall i :: 0 <= i < |hs| ==> r[i] == CancelDownload(hs[i])
  {
    seq(|hs|, i requires 0 <= i < |hs| => CancelDownload(hs[i]))
  }

  /** The queue after j steps of checkShufflePlay's shift: j fresh handles appended, j dropped from the head. */
  function ShiftedQueue(base: seq<Handle>, songs: seq<Song>, firstId: nat, j: nat): (r: seq<Handle>)
    requires j <= |songs| && j <= |base|
    ensures |r| == |base|
  {
    (base + NewHandles(songs[..j], firstId, false))[j..]
  }

  /** One shift step: the head is base[j], and the next queue is this one plus a fresh handle, minus the head. */
  lemma ShiftedStep(base: seq<Handle>, songs: seq<Song>, firstId: nat, j: nat)
    requires j < |songs| && j < |base|
    ensures ShiftedQueue(base, songs, firstId, j)[0] == base[j]
    ensures ShiftedQueue(base, songs, firstId, j + 1)
         == (ShiftedQueue(base, songs, firstId, j) + [Handle(firstId + j, songs[j], false)])[1..]
    ensures Cancels(base[..j + 1]) == Cancels(base[..j]) + [CancelDownload(base[j])]
  {
    var g := base + NewHandles(songs[..j], firstId, false);
    assert songs[..j + 1] == songs[..j] + [songs[j]];
    assert NewHandles(songs[..j + 1], firstId, false) == NewHandles(songs[..j], firstId, false) + [Handle(firstId + j, songs[j], false)];
    assert g[j..] + [Handle(firstId + j, songs[j], false)] == (g + [Handle(firstId + j, songs[j], false)])[j..];
  }

  /** Shifting keeps every id below the next fresh one. */
  lemma ShiftedIds(base: seq<Handle>, songs: seq<Song>, firstId: nat, j: nat)
    requires j <= |songs| && j <= |base|
    requires forall h :: h in base ==> h.id < firstId
    ensures forall h :: h in ShiftedQueue(base, songs, firstId, j) ==> h.id < firstId + j
  {
    var g := base + NewHandles(songs[..j], firstId, false);
    forall h | h in g[j..] ensures h.id < firstId + j {
      var i :| 0 <= i < |g[j..]| && g[j..][i] == h;
      if i + j < |base| { assert h == base[i + j]; }
    }
  }

  /**
   Where download() puts the new handles hs: appended at the end; with
   playNext, spliced in right after the current track (at the front when
   there is none); with playNext and autoplay and a current track at k, the
   first one goes in at k, in front of the current track, and the rest right
   after the current track.
   */
  function Enqueued(list: seq<Handle>, cp: Option<Handle>, hs: seq<Handle>, autoplay: bool, playNext: bool): (r: seq<Handle>)
    requires |hs| > 0
    ensures |r| == |list| + |hs|
  {
    if !playNext then list + hs
    else
      var k := CurrentIndex(list, cp);
      if autoplay && k >= 0 then Spliced(InsertAt(list, k, hs[0]), k + 2, hs[1..])
      else Spliced(list, k + 1, hs)
  }

  /** Enqueueing adds exactly the new handles and loses nothing. */
  lemma EnqueuedContents(list: seq<Handle>, cp: Option<Handle>, hs: seq<Handle>, autoplay: bool, playNext: bool)
    requires |hs| > 0
    ensures multiset(Enqueued(list, cp, hs, autoplay, playNext)) == multiset(list) + multiset(hs)
  {
    if playNext {
      var k := CurrentIndex(list, cp);
      if autoplay && k >= 0 {
        assert hs == [hs[0]] + hs[1..];
      }
    }
  }

  /** The three parts of a splice. */
  lemma SplicedParts(s: seq<Handle>, pos: nat, t: seq<Handle>)
    requires pos <= |s|
    ensures Spliced(s, pos, t)[..pos] == s[..pos]
    ensures Spliced(s, pos, t)[pos..pos + |t|] == t
    ensures Spliced(s, pos, t)[pos + |t|..] == s[pos..]
  {
    var r := Spliced(s, pos, t);
    assert r == s[..pos] + t + s[pos..];
  }

  /**
   playNext without the autoplay case: the new handles sit right after the
   current track (at the front when there is none) in their given order, and
   the current track keeps its position.
   */
  lemma EnqueuedPlayNext(list: seq<Handle>, cp: Option<Handle>, hs: seq<Handle>, autoplay: bool)
    requires |hs| > 0
    requires !(autoplay && CurrentIndex(list, cp) >= 0)
    requires forall h :: h in hs ==> cp != Some(h)
    ensures CurrentIndex(Enqueued(list, cp, hs, autoplay, true), cp) == CurrentIndex(list, cp)
    ensures Enqueued(list, cp, hs, autoplay, true)[CurrentIndex(list, cp) + 1..CurrentIndex(list, cp) + 1 + |hs|] == hs
  {
    var k := CurrentIndex(list, cp);
    CurrentIndexAfterSplice(list, k + 1, hs, cp);
    SplicedParts(list, k + 1, hs);
  }

  /**
   The whole queue after playNext without the autoplay case: everything up to
   the current track, the new handles, then the rest in its old order.
   */
  lemma EnqueuedPlayNextQueue(list: seq<Handle>, cp: Option<Handle>, hs: seq<Handle>, autoplay: bool)
    requires |hs| > 0
    requires !(autoplay && CurrentIndex(list, cp) >= 0)
    ensures var k := CurrentIndex(list, cp);
      0 <= k + 1 <= |list| && Enqueued(list, cp, hs, autoplay, true) == list[..k + 1] + hs + list[k + 1..]
  {
    var k := CurrentIndex(list, cp);
    assert Enqueued(list, cp, hs, autoplay, true) == Spliced(list, k + 1, hs);
    SplicedConcat(list, k + 1, hs);
  }

  /** A splice is the prefix, the block and the suffix, concatenated. */
  lemma SplicedConcat(s: seq<Handle>, pos: nat, t: seq<Handle>)
    requires pos <= |s|
    ensures Spliced(s, pos, t) == s[..pos] + t + s[pos..]
  {
    SplicedParts(s, pos, t);
    var r := Spliced(s, pos, t);
    assert r == r[..pos] + r[pos..pos + |t|] + r[pos + |t|..];
  }

  /**
   playNext with autoplay and a current track at k: the first new handle
   takes position k, the current track moves to k + 1 and the other new
   handles follow it.
   */
  lemma EnqueuedAutoplayNext(list: seq<Handle>, cp: Handle, hs: seq<Handle>)
    requires |hs| > 0 && cp in list
    requires forall h :: h in hs ==> cp != h
    ensures var k := IndexOf(list, cp);
      Enqueued(list, Some(cp), hs, true, true) == list[..k] + [hs[0]] + [cp] + hs[1..] + list[k + 1..]
    ensures CurrentIndex(Enqueued(list, Some(cp), hs, true, true), Some(cp)) == IndexOf(list, cp) + 1
  {
    var k := IndexOf(list, cp);
    var first := InsertAt(list, k, hs[0]);
    var r := Spliced(first, k + 2, hs[1..]);
    assert Enqueued(list, Some(cp), hs, true, true) == r;
    assert CurrentIndex(r, Some(cp)) == k + 1 by {
      assert hs[0] in hs;
      IndexOfAfterInsert(list, k, hs[0], cp);
      forall h | h in hs[1..] ensures Some(cp) != Some(h) {
        assert h in hs;
      }
      CurrentIndexAfterSplice(first, k + 2, hs[1..], Some(cp));
    }
    assert r == list[..k] + [hs[0]] + [cp] + hs[1..] + list[k + 1..] by {
      assert first[..k + 2] == list[..k] + [hs[0]] + [cp];
      assert first[k + 2..] == list[k + 1..];
      assert r == first[..k + 2] + hs[1..] + first[k + 2..];
    }
  }

  /**
   The queue after the first j insertions of download() with playNext, when
   the offset started at offset0 (0 only for autoplay with a current track).
   */
  function NextInserted(list: seq<Handle>, cp: Option<Handle>, hs: seq<Handle>, offset0: nat, j: nat): (r: seq<Handle>)
    requires j <= |hs| && offset0 <= 1
    requires offset0 == 0 ==> CurrentIndex(list, cp) >= 0 && |hs| > 0
    ensures |r| == |list| + j
  {
    var k := CurrentIndex(list, cp);
    if offset0 == 1 then Spliced(list, k + 1, hs[..j])
    else if j == 0 then list
    else Spliced(InsertAt(list, k, hs[0]), k + 2, hs[1..j])
  }

  /**
   One iteration of the playNext loop: inserting hs[j] at the current
   track's index plus the offset reached after j songs extends the queue by
   exactly that handle.
   */
  lemma NextInsertedStep(list: seq<Handle>, cp: Option<Handle>, hs: seq<Handle>, offset0: nat, j: nat, j': nat, q: seq<Handle>, at: int, h: Handle, r: seq<Handle>)
    requires j < |hs| && j' == j + 1 && offset0 <= 1
    requires offset0 == 0 ==> CurrentIndex(list, cp) >= 0
    requires forall h :: h in hs ==> cp != Some(h)
    requires q == NextInserted(list, cp, hs, offset0, j) && at == CurrentIndex(q, cp) + offset0 + j && h == hs[j]
    requires 0 <= at <= |q| && r == InsertAt(q, at, h)
    ensures r == NextInserted(list, cp, hs, offset0, j')
  {
    if offset0 == 1 {
      NextInsertedBehindCurrent(list, cp, hs, offset0, j);
    } else if j == 0 {
      NextInsertedInFront(list, cp, hs, offset0, j);
    } else {
      NextInsertedBehindFirst(list, cp, hs, offset0, j);
    }
  }

  /** The position the playNext loop inserts at is a valid index for add(i, x). */
  lemma InsertionPoint(list: seq<Handle>, cp: Option<Handle>, hs: seq<Handle>, offset0: nat, j: nat, q: seq<Handle>, at: int)
    requires j < |hs| && offset0 <= 1
    requires offset0 == 0 ==> CurrentIndex(list, cp) >= 0
    requires forall h :: h in hs ==> cp != Some(h)
    requires q == NextInserted(list, cp, hs, offset0, j) && at == CurrentIndex(q, cp) + offset0 + j
    ensures 0 <= at <= |q|
  {
    if offset0 == 1 {
      NextInsertedBehindCurrent(list, cp, hs, offset0, j);
    } else if j == 0 {
      NextInsertedInFront(list, cp, hs, offset0, j);
    } else {
      NextInsertedBehindFirst(list, cp, hs, offset0, j);
    }
  }

  /** Without autoplay the block of new handles grows right behind the current track. */
  lemma NextInsertedBehindCurrent(list: seq<Handle>, cp: Option<Handle>, hs: seq<Handle>, offset0: nat, j: nat)
    requires j < |hs| && offset0 == 1
    requires forall h :: h in hs ==> cp != Some(h)
    ensures var q := NextInserted(list, cp, hs, offset0, j);
      var at := CurrentIndex(q, cp) + offset0 + j;
      0 <= at <= |q| && InsertAt(q, at, hs[j]) == NextInserted(list, cp, hs, offset0, j + 1)
  {
    var k := CurrentIndex(list, cp);
    SplicedInsertStep(list, k + 1, hs[..j], hs[j], hs[..j + 1], cp) by {
      SliceExtend(hs, 0, j);
      forall x | x in hs[..j] ensures cp != Some(x) { assert x in hs; }
    }
  }

  /** With autoplay the first new handle goes in front of the current track. */
  lemma NextInsertedInFront(list: seq<Handle>, cp: Option<Handle>, hs: seq<Handle>, offset0: nat, j: nat)
    requires j == 0 < |hs| && offset0 == 0 && CurrentIndex(list, cp) >= 0
    requires forall h :: h in hs ==> cp != Some(h)
    ensures var q := NextInserted(list, cp, hs, offset0, j);
      var at := CurrentIndex(q, cp) + offset0 + j;
      0 <= at <= |q| && InsertAt(q, at, hs[j]) == NextInserted(list, cp, hs, offset0, j + 1)
  {
    var k := CurrentIndex(list, cp);
    SplicedNothing(InsertAt(list, k, hs[0]), k + 2) by {
      assert hs[0] in hs;
      InFrontStep(list, cp, hs[0]);
    }
    assert hs[1..1] == [];
  }

  /** With autoplay the later new handles grow a block behind the current track, which the first one pushed right. */
  lemma NextInsertedBehindFirst(list: seq<Handle>, cp: Option<Handle>, hs: seq<Handle>, offset0: nat, j: nat)
    requires 0 < j < |hs| && offset0 == 0 && CurrentIndex(list, cp) >= 0
    requires forall h :: h in hs ==> cp != Some(h)
    ensures var q := NextInserted(list, cp, hs, offset0, j);
      var at := CurrentIndex(q, cp) + offset0 + j;
      0 <= at <= |q| && InsertAt(q, at, hs[j]) == NextInserted(list, cp, hs, offset0, j + 1)
  {
    var k := CurrentIndex(list, cp);
    var first := InsertAt(list, k, hs[0]);
    BehindFirstShape(list, cp, hs, j);
    BehindFirstShape(list, cp, hs, j + 1);
    SliceExtend(hs, 1, j);
    var q := NextInserted(list, cp, hs, offset0, j);
    SplicedGrows(q, NextInserted(list, cp, hs, offset0, j + 1), first, k + 2, hs[1..j], hs[j], hs[1..j + 1],
      CurrentIndex(q, cp) + offset0 + j);
  }

  /** An insertion right after a spliced block gives the splice of the longer block. */
  lemma SplicedGrows(q: seq<Handle>, q': seq<Handle>, s: seq<Handle>, pos: nat, t: seq<Handle>, h: Handle, t': seq<Handle>, at: int)
    requires pos <= |s| && q == Spliced(s, pos, t) && t' == t + [h] && q' == Spliced(s, pos, t') && at == pos + |t|
    ensures 0 <= at <= |q| && InsertAt(q, at, h) == q'
  {
    SplicedStepAt(s, pos, t, h, at);
  }

  /** With autoplay, after j > 0 songs the queue is the first handle in front of the current track and the rest behind it. */
  lemma BehindFirstShape(list: seq<Handle>, cp: Option<Handle>, hs: seq<Handle>, j: nat)
    requires 0 < j <= |hs| && CurrentIndex(list, cp) >= 0
    requires forall h :: h in hs ==> cp != Some(h)
    ensures var k := CurrentIndex(list, cp);
      var q := NextInserted(list, cp, hs, 0, j);
      q == Spliced(InsertAt(list, k, hs[0]), k + 2, hs[1..j]) && CurrentIndex(q, cp) == k + 1
  {
    assert hs[0] in hs;
    forall x | x in hs[1..j] ensures cp != Some(x) { assert x in hs; }
    BehindFirstIndex(list, cp, hs[0], hs[1..j]);
  }

  /** SplicedStep with the insertion position given by the caller. */
  lemma SplicedStepAt(s: seq<Handle>, pos: nat, t: seq<Handle>, h: Handle, at: int)
    requires pos <= |s| && at == pos + |t|
    ensures 0 <= at <= |Spliced(s, pos, t)|
    ensures InsertAt(Spliced(s, pos, t), at, h) == Spliced(s, pos, t + [h])
  {
    SplicedStep(s, pos, t, h);
  }

  /** The current track, pushed right by the first handle, stays put while the block behind it grows. */
  lemma BehindFirstIndex(list: seq<Handle>, cp: Option<Handle>, h: Handle, t: seq<Handle>)
    requires CurrentIndex(list, cp) >= 0 && cp != Some(h)
    requires forall x :: x in t ==> cp != Some(x)
    ensures var k := CurrentIndex(list, cp);
      CurrentIndex(Spliced(InsertAt(list, k, h), k + 2, t), cp) == k + 1
  {
    var k := CurrentIndex(list, cp);
    InFrontStep(list, cp, h);
    CurrentIndexAfterSplice(InsertAt(list, k, h), k + 2, t, cp);
  }

  /** Every handle in the queue during the playNext loop was there before or is one of the handles inserted so far. */
  lemma NextInsertedMembers(list: seq<Handle>, cp: Option<Handle>, hs: seq<Handle>, offset0: nat, j: nat)
    requires j <= |hs| && offset0 <= 1
    requires offset0 == 0 ==> CurrentIndex(list, cp) >= 0 && |hs| > 0
    ensures forall h :: h in NextInserted(list, cp, hs, offset0, j) ==> h in list || h in hs[..j]
  {
    var k := CurrentIndex(list, cp);
    var q := NextInserted(list, cp, hs, offset0, j);
    if offset0 == 0 && j > 0 {
      assert multiset(q) == multiset(list) + multiset{hs[0]} + multiset(hs[1..j]);
      forall h | h in q ensures h in list || h in hs[..j] {
        assert h in multiset(q);
        if h in hs[1..j] {
          var i :| 1 <= i < j && hs[i] == h;
          assert hs[..j][i] == h;
        } else if h == hs[0] {
          assert hs[..j][0] == h;
        }
      }
    } else if offset0 == 1 {
      forall h | h in q ensures h in list || h in hs[..j] {
        assert h in multiset(q);
      }
    }
  }

  /** The handles in the queue during the playNext loop all have ids below the counter. */
  lemma NextInsertedIds(list: seq<Handle>, cp: Option<Handle>, songs: seq<Song>, firstId: nat, save: bool, offset0: nat, j: nat)
    requires j <= |songs| && offset0 <= 1
    requires offset0 == 0 ==> CurrentIndex(list, cp) >= 0 && |songs| > 0
    requires forall h :: h in list ==> h.id < firstId
    ensures forall h :: h in NextInserted(list, cp, NewHandles(songs, firstId, save), offset0, j) ==> h.id < firstId + j
  {
    var hs := NewHandles(songs, firstId, save);
    NextInsertedMembers(list, cp, hs, offset0, j);
    forall h | h in hs[..j] ensures h.id < firstId + j {
      var i :| 0 <= i < j && hs[..j][i] == h;
    }
  }

  /** After all songs the playNext loop has produced Enqueued's queue. */
  lemma NextInsertedDone(list: seq<Handle>, cp: Option<Handle>, hs: seq<Handle>, autoplay: bool)
    requires |hs| > 0
    ensures var offset0 := if autoplay && CurrentIndex(list, cp) >= 0 then 0 else 1;
      NextInserted(list, cp, hs, offset0, |hs|) == Enqueued(list, cp, hs, autoplay, true)
  {
    assert hs[..|hs|] == hs && hs[1..|hs|] == hs[1..];
  }

  /**
   Splicing behind the current track keeps it where it is, and one more
   insertion at the end of the spliced block extends the block.
   */
  lemma SplicedInsertStep(base: seq<Handle>, pos: nat, t: seq<Handle>, h: Handle, t': seq<Handle>, cp: Option<Handle>)
    requires pos <= |base| && CurrentIndex(base, cp) < pos && t' == t + [h]
    requires forall x :: x in t ==> cp != Some(x)
    ensures CurrentIndex(Spliced(base, pos, t), cp) == CurrentIndex(base, cp)
    ensures InsertAt(Spliced(base, pos, t), pos + |t|, h) == Spliced(base, pos, t')
  {
    CurrentIndexAfterSplice(base, pos, t, cp);
    SplicedStep(base, pos, t, h);
  }

  /** An autoplaying playNext puts its first handle in front of the current track, which moves one to the right. */
  lemma InFrontStep(list: seq<Handle>, cp: Option<Handle>, h: Handle)
    requires CurrentIndex(list, cp) >= 0 && cp != Some(h)
    ensures var k := CurrentIndex(list, cp);
      CurrentIndex(InsertAt(list, k, h), cp) == k + 1
  {
    IndexOfAfterInsert(list, CurrentIndex(list, cp), h, cp.value);
  }

  /** Splicing in nothing leaves the sequence as it was. */
  lemma SplicedNothing(s: seq<Handle>, pos: nat)
    requires pos <= |s|
    ensures Spliced(s, pos, []) == s
  {
    assert s[..pos] + [] + s[pos..] == s;
  }
}
