/**
 The lookup cache behind forSong (LRUCache with capacity 100): handles for
 songs that are not in the queue, evicted least-recently-used first. Entries
 are kept in access order, the least recently used first.
 */
module LookupCache {

  import opened Seqs
  import opened Domain

  const Capacity: nat := 100

  datatype Entry = Entry(song: Song, handle: Handle)

  /**
   The cache's entries in access order; `Valid` says each song appears once,
   each handle is for the song it is stored under, and the capacity holds.
   */
  datatype Cache = Cache(entries: seq<Entry>)
  {
    ghost predicate Valid()
    {
      |entries| <= Capacity && UniqueSongs(entries)
      && forall e :: e in entries ==> e.handle.song == e.song
    }
  }

  function Empty(): (c: Cache)
    ensures c.Valid() && c.entries == []
  {
    Cache([])
  }

  /** Position of the entry for song, or -1. */
  function Find(entries: seq<Entry>, song: Song): (r: int)
    ensures -1 <= r < |entries|
    ensures r >= 0 ==> entries[r].song == song
    ensures r == -1 <==> forall i :: 0 <= i < |entries| ==> entries[i].song != song
  {
    FindFrom(entries, song, 0)
  }

  /** The search for song's entry from position i on. */
  function FindFrom(entries: seq<Entry>, song: Song, i: nat): (r: int)
    requires i <= |entries|
    requires forall j :: 0 <= j < i ==> entries[j].song != song
    ensures -1 <= r < |entries|
    ensures r >= 0 ==> entries[r].song == song
    ensures r == -1 <==> forall j :: 0 <= j < |entries| ==> entries[j].song != song
    decreases |entries| - i
  {
    if i == |entries| then -1
    else if entries[i].song == song then i
    else FindFrom(entries, song, i + 1)
  }

  predicate UniqueSongs(es: seq<Entry>)
  {
    forall i, j :: 0 <= i < j < |es| ==> es[i].song != es[j].song
  }

  /** The entries other than the one for song, in the same order. */
  function Without(es: seq<Entry>, song: Song): seq<Entry>
  {
    var k := Find(es, song);
    if k < 0 then es else es[..k] + es[k + 1..]
  }

  /** Without keeps each song at most once and keeps exactly the entries for other songs. */
  lemma WithoutMembers(es: seq<Entry>, song: Song)
    requires UniqueSongs(es)
    ensures UniqueSongs(Without(es, song))
    ensures forall e :: e in Without(es, song) <==> e in es && e.song != song
  {
    var k := Find(es, song);
    if k >= 0 {
      CutUnique(es, k);
      CutMembers(es, k);
    }
  }

  lemma CutUnique(es: seq<Entry>, k: nat)
    requires UniqueSongs(es) && k < |es|
    ensures UniqueSongs(es[..k] + es[k + 1..])
  {
    var r := es[..k] + es[k + 1..];
    forall i, j | 0 <= i < j < |r| ensures r[i].song != r[j].song {
      var i' := if i < k then i else i + 1;
      var j' := if j < k then j else j + 1;
      assert r[i] == es[i'] && r[j] == es[j'];
    }
  }

  lemma CutMembers(es: seq<Entry>, k: nat)
    requires UniqueSongs(es) && k < |es|
    ensures forall e :: e in es[..k] + es[k + 1..] <==> e in es && e.song != es[k].song
  {
    var r := es[..k] + es[k + 1..];
    forall e | e in r ensures e in es && e.song != es[k].song {
      var i :| 0 <= i < |r| && r[i] == e;
      var i' := if i < k then i else i + 1;
      assert r[i] == es[i'];
    }
    forall e | e in es && e.song != es[k].song ensures e in r {
      var i :| 0 <= i < |es| && es[i] == e;
      assert r[if i < k then i else i - 1] == e;
    }
  }

  /** Taking out the song's entry shortens the entries by one and loses no other entry. */
  lemma WithoutTakesOne(es: seq<Entry>, song: Song)
    requires UniqueSongs(es) && Find(es, song) >= 0
    ensures |Without(es, song)| == |es| - 1
    ensures multiset(Without(es, song)) + multiset{es[Find(es, song)]} == multiset(es)
  {
    CutCounts(es, Find(es, song));
  }

  lemma CutCounts(es: seq<Entry>, k: nat)
    requires k < |es|
    ensures |es[..k] + es[k + 1..]| == |es| - 1
    ensures multiset(es[..k] + es[k + 1..]) + multiset{es[k]} == multiset(es)
  {
    assert es == es[..k] + [es[k]] + es[k + 1..];
  }

  /** get(song): the cached handle, if any; a hit makes the entry the most recently used. */
  function Get(c: Cache, song: Song): (r: (Option<Handle>, Cache))
    requires c.Valid()
    ensures r.1.Valid() && |r.1.entries| == |c.entries|
    ensures r.0.Some? <==> exists i :: 0 <= i < |c.entries| && c.entries[i].song == song
    ensures r.0.Some? ==> Entry(song, r.0.value) in c.entries
    ensures r.0.Some? ==> r.1.entries[|r.1.entries| - 1] == Entry(song, r.0.value)
    ensures multiset(r.1.entries) == multiset(c.entries)
    ensures r.0.None? ==> r.1 == c
  {
    var i := Find(c.entries, song);
    if i < 0 then (None, c)
    else
      var e := c.entries[i];
      var rest := Without(c.entries, song);
      WithoutMembers(c.entries, song);
      WithoutTakesOne(c.entries, song);
      UniqueAppend(rest, e);
      (Some(e.handle), Cache(rest + [e]))
  }

  /**
   A hit moves the song's entry to the most recently used end and leaves the
   other entries in their order.
   */
  lemma GetOnHit(c: Cache, song: Song)
    requires c.Valid() && Find(c.entries, song) >= 0
    ensures var k := Find(c.entries, song);
      Get(c, song).0 == Some(c.entries[k].handle)
      && Get(c, song).1.entries == c.entries[..k] + c.entries[k + 1..] + [c.entries[k]]
  {
  }

  /**
   put(song, h): the entry for song becomes h and the most recently used;
   when that brings the cache over capacity, the least recently used entry
   is dropped.
   */
  function Put(c: Cache, song: Song, h: Handle): (r: Cache)
    requires c.Valid() && h.song == song
    ensures r.Valid()
    ensures |r.entries| > 0 && r.entries[|r.entries| - 1] == Entry(song, h)
    ensures forall e :: e in r.entries && e.song != song ==> e in c.entries
    ensures |c.entries| < Capacity ==> forall e :: e in c.entries && e.song != song ==> e in r.entries
    ensures |c.entries| == Capacity && Find(c.entries, song) < 0 ==> r.entries == c.entries[1..] + [Entry(song, h)]
    ensures |c.entries| < Capacity || Find(c.entries, song) >= 0 ==> r.entries == Without(c.entries, song) + [Entry(song, h)]
  {
    var added := Without(c.entries, song) + [Entry(song, h)];
    Refreshed(c, song, h);
    if |added| > Capacity then
      var kept := added[1..];
      UniqueDrop(added);
      assert forall e :: e in kept ==> e in added;
      Cache(kept)
    else Cache(added)
  }

  /** The entries with the song's entry replaced by a most recently used one for h. */
  lemma Refreshed(c: Cache, song: Song, h: Handle)
    requires c.Valid() && h.song == song
    ensures var added := Without(c.entries, song) + [Entry(song, h)];
      UniqueSongs(added) && |added| <= |c.entries| + 1
      && (Find(c.entries, song) >= 0 ==> |added| == |c.entries|)
      && (forall e :: e in added ==> e.handle.song == e.song)
      && (forall e :: e in added && e.song != song ==> e in c.entries)
      && (forall e :: e in c.entries && e.song != song ==> e in added)
  {
    var rest := Without(c.entries, song);
    WithoutMembers(c.entries, song);
    if Find(c.entries, song) >= 0 {
      WithoutTakesOne(c.entries, song);
    }
    UniqueAppend(rest, Entry(song, h));
  }

  /**
   The handle forSong takes from the cache and the cache it leaves: on a hit
   the cached handle, on a miss a new unpinned handle with id nextId, put
   into the cache.
   */
  function CachedHandle(c: Cache, nextId: nat, song: Song): (r: (Handle, Cache))
    requires c.Valid()
    ensures r.1.Valid() && r.0.song == song
    ensures Get(r.1, song).0 == Some(r.0)
    ensures Get(c, song).0.Some? ==> r == (Get(c, song).0.value, Get(c, song).1)
    ensures Get(c, song).0.None? ==> r.0 == Handle(nextId, song, false)
  {
    var (hit, c') := Get(c, song);
    if hit.Some? then
      assert Entry(song, hit.value) in c.entries;
      GetLast(c', song, hit.value);
      (hit.value, c')
    else
      var h := Handle(nextId, song, false);
      PutThenGet(c', song, h);
      (h, Put(c', song, h))
  }

  lemma UniqueAppend(w: seq<Entry>, e: Entry)
    requires UniqueSongs(w) && forall x :: x in w ==> x.song != e.song
    ensures UniqueSongs(w + [e])
  {
    forall i, j | 0 <= i < j < |w| + 1 ensures (w + [e])[i].song != (w + [e])[j].song {
      if j == |w| {
        assert (w + [e])[i] == w[i] && w[i] in w;
      }
    }
  }

  lemma UniqueDrop(es: seq<Entry>)
    requires UniqueSongs(es) && |es| > 0
    ensures UniqueSongs(es[1..])
  {
    forall i, j | 0 <= i < j < |es| - 1 ensures es[1..][i].song != es[1..][j].song {
      assert es[1..][i] == es[i + 1] && es[1..][j] == es[j + 1];
    }
  }

  /** The most recently used entry is what get returns for its song. */
  lemma GetLast(c: Cache, song: Song, h: Handle)
    requires c.Valid() && |c.entries| > 0 && c.entries[|c.entries| - 1] == Entry(song, h)
    ensures Get(c, song).0 == Some(h)
  {
    assert Find(c.entries, song) == |c.entries| - 1;
  }

  /** A handle just put is what the next get of that song returns. */
  lemma PutThenGet(c: Cache, song: Song, h: Handle)
    requires c.Valid() && h.song == song
    ensures Get(Put(c, song, h), song).0 == Some(h)
  {
    var r := Put(c, song, h);
    var k := |r.entries| - 1;
    assert r.entries[k].song == song;
    var i := Find(r.entries, song);
    assert i == k;
  }
}
