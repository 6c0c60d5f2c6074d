/**
 * The watch-history ledger of `getVideoById`: a user's ordered list of
 * watched videos, where a rewatch refreshes the timestamp of the existing
 * entry and a first view appends a snapshot of the video.
 */
module History {
  import opened Schema

  /** One entry of a user's watch history: a snapshot of the video taken at the first view. */
  datatype WatchEntry = WatchEntry(
    videoId: VideoId,
    title: string,
    thumbnail: Url,
    duration: real,
    watchedAt: Timestamp,
    progress: real)

  /** The entry a first view appends: the video's current title, thumbnail and duration, progress 0. */
  function FirstView(v: Video, now: Timestamp): WatchEntry {
    WatchEntry(v.id, v.title, v.thumbnail, v.duration, now, 0.0)
  }

  /** `findIndex` on the video id: the first matching position, or -1 when there is none. */
  function IndexOf(h: seq<WatchEntry>, id: VideoId): (r: int)
    ensures -1 <= r < |h|
    ensures r == -1 <==> forall k | 0 <= k < |h| :: h[k].videoId != id
    ensures 0 <= r ==> h[r].videoId == id && forall k | 0 <= k < r :: h[k].videoId != id
  {
    if h == [] then -1
    else if h[0].videoId == id then 0
    else
      var r := IndexOf(h[1..], id);
      if r == -1 then -1 else r + 1
  }

  /**
   * The history after viewing `v` at time `now`: every earlier entry keeps
   * its place and its video, at most one entry is added, and the video then
   * has an entry stamped `now`.
   */
  function Upsert(h: seq<WatchEntry>, v: Video, now: Timestamp): (r: seq<WatchEntry>)
    ensures |h| <= |r| <= |h| + 1
    ensures forall k | 0 <= k < |h| :: r[k].videoId == h[k].videoId
    ensures exists k | 0 <= k < |r| :: r[k].videoId == v.id && r[k].watchedAt == now
  {
    var i := IndexOf(h, v.id);
    if i == -1 then
      var r := h + [FirstView(v, now)];
      assert r[|h|].videoId == v.id && r[|h|].watchedAt == now;
      r
    else
      var r := h[i := h[i].(watchedAt := now)];
      assert r[i].videoId == v.id && r[i].watchedAt == now;
      r
  }

  predicate Watched(h: seq<WatchEntry>, id: VideoId) {
    exists k | 0 <= k < |h| :: h[k].videoId == id
  }

  /** At most one entry per video. */
  predicate UniqueByVideo(h: seq<WatchEntry>) {
    forall i, j | 0 <= i < j < |h| :: h[i].videoId != h[j].videoId
  }

  /** Two entries agree on everything except the time of the last view. */
  predicate SameSnapshot(a: WatchEntry, b: WatchEntry) {
    a.videoId == b.videoId && a.title == b.title && a.thumbnail == b.thumbnail
    && a.duration == b.duration && a.progress == b.progress
  }

  function CountOf(h: seq<WatchEntry>, id: VideoId): nat {
    if h == [] then 0 else (if h[0].videoId == id then 1 else 0) + CountOf(h[1..], id)
  }

  function VideosIn(h: seq<WatchEntry>): set<VideoId> {
    set k | 0 <= k < |h| :: h[k].videoId
  }

  /** Scans the history the way `findIndex` does. */
  method FindHistoryIndex(h: seq<WatchEntry>, id: VideoId) returns (i: int)
    ensures i == -1 <==> !Watched(h, id)
    ensures i != -1 ==> 0 <= i < |h| && h[i].videoId == id && forall k | 0 <= k < i :: h[k].videoId != id
    ensures i == IndexOf(h, id)
  {
    i := 0;
    while i < |h| && h[i].videoId != id
      invariant 0 <= i <= |h|
      invariant forall k | 0 <= k < i :: h[k].videoId != id
    {
      i := i + 1;
    }
    if i == |h| {
      i := -1;
    }
  }

  /**
   * A rewatch keeps the length, the order and every snapshot field; the only
   * entry that changes is the one `findIndex` finds, and only its `watchedAt`.
   */
  lemma RewatchTouchesOnlyTimestamp(h: seq<WatchEntry>, v: Video, now: Timestamp)
    requires Watched(h, v.id)
    ensures var r := Upsert(h, v, now);
      && |r| == |h|
      && (forall k | 0 <= k < |h| :: SameSnapshot(r[k], h[k]))
      && (forall k | 0 <= k < |h| && k != IndexOf(h, v.id) :: r[k] == h[k])
      && r[IndexOf(h, v.id)].watchedAt == now
  {
  }

  /**
   * A first view appends exactly one entry at the end, holding the video's
   * current title, thumbnail and duration, progress 0 and the view time.
   */
  lemma FirstViewAppends(h: seq<WatchEntry>, v: Video, now: Timestamp)
    requires !Watched(h, v.id)
    ensures var r := Upsert(h, v, now);
      && |r| == |h| + 1
      && r[..|h|] == h
      && r[|h|].videoId == v.id && r[|h|].title == v.title && r[|h|].thumbnail == v.thumbnail
      && r[|h|].duration == v.duration && r[|h|].progress == 0.0 && r[|h|].watchedAt == now
  {
  }

  /** After a view the video is in the history, and no other video entered or left it. */
  lemma ViewRecordsExactlyThatVideo(h: seq<WatchEntry>, v: Video, now: Timestamp)
    ensures Watched(Upsert(h, v, now), v.id)
    ensures VideosIn(Upsert(h, v, now)) == VideosIn(h) + {v.id}
  {
    var r := Upsert(h, v, now);
    var i := IndexOf(h, v.id);
    var at := if i == -1 then |h| else i;
    assert r[at].videoId == v.id;
    assert forall k | 0 <= k < |h| :: r[k].videoId == h[k].videoId;
    assert forall k | |h| <= k < |r| :: r[k].videoId == v.id;
    forall x ensures x in VideosIn(r) <==> x in VideosIn(h) + {v.id} {
      if x in VideosIn(h) {
        var k :| 0 <= k < |h| && h[k].videoId == x;
        assert r[k].videoId == x;
      }
      if x in VideosIn(r) {
        var k :| 0 <= k < |r| && r[k].videoId == x;
        if k < |h| {
          assert h[k].videoId == x;
        }
      }
    }
  }

  /** A view keeps the history free of duplicate entries. */
  lemma ViewKeepsUnique(h: seq<WatchEntry>, v: Video, now: Timestamp)
    requires UniqueByVideo(h)
    ensures UniqueByVideo(Upsert(h, v, now))
  {
    var r := Upsert(h, v, now);
    if IndexOf(h, v.id) != -1 {
      assert forall k | 0 <= k < |h| :: r[k].videoId == h[k].videoId;
    }
  }

  /** "At most one entry per video" is the same as "every video is counted at most once". */
  lemma {:induction false} UniqueIffCountAtMostOne(h: seq<WatchEntry>)
    ensures UniqueByVideo(h) <==> forall id :: CountOf(h, id) <= 1
  {
    if h != [] {
      var t := h[1..];
      UniqueIffCountAtMostOne(t);
      CountZeroIffUnwatched(t, h[0].videoId);
      if UniqueByVideo(h) {
        assert UniqueByVideo(t) by {
          forall i, j | 0 <= i < j < |t| ensures t[i].videoId != t[j].videoId {
            assert t[i] == h[i + 1] && t[j] == h[j + 1];
          }
        }
        assert !Watched(t, h[0].videoId) by {
          forall k | 0 <= k < |t| ensures t[k].videoId != h[0].videoId {
            assert t[k] == h[k + 1];
          }
        }
        forall id ensures CountOf(h, id) <= 1 {
          assert CountOf(h, id) == (if h[0].videoId == id then 1 else 0) + CountOf(t, id);
        }
      } else {
        var i, j :| 0 <= i < j < |h| && h[i].videoId == h[j].videoId;
        if i == 0 {
          assert t[j - 1] == h[j];
          assert CountOf(h, h[0].videoId) >= 2;
        } else {
          assert t[i - 1] == h[i] && t[j - 1] == h[j];
          assert !UniqueByVideo(t);
          var id :| CountOf(t, id) > 1;
          assert CountOf(h, id) > 1;
        }
      }
    }
  }

  /** A video is counted zero times exactly when it is not in the history. */
  lemma {:induction false} CountZeroIffUnwatched(h: seq<WatchEntry>, id: VideoId)
    ensures CountOf(h, id) == 0 <==> !Watched(h, id)
  {
    if h != [] {
      CountZeroIffUnwatched(h[1..], id);
      assert forall k | 1 <= k < |h| :: h[k] == h[1..][k - 1];
    }
  }

  /** Viewing the same video a second time leaves the length where the first view left it, for any history. */
  lemma RewatchKeepsLength(h: seq<WatchEntry>, v: Video, v': Video, t1: Timestamp, t2: Timestamp)
    requires v'.id == v.id
    ensures |Upsert(Upsert(h, v, t1), v', t2)| == |Upsert(h, v, t1)|
  {
    ViewRecordsExactlyThatVideo(h, v, t1);
    RewatchTouchesOnlyTimestamp(Upsert(h, v, t1), v', t2);
  }

  /**
   * Viewing the same video twice: the second view leaves the length where the
   * first left it, the video has exactly one entry (when the history had no
   * duplicates before) and that entry carries the second view's time.
   */
  lemma RewatchIsIdempotent(h: seq<WatchEntry>, v: Video, v': Video, t1: Timestamp, t2: Timestamp)
    requires v'.id == v.id
    requires UniqueByVideo(h)
    ensures |Upsert(Upsert(h, v, t1), v', t2)| == |Upsert(h, v, t1)|
    ensures CountOf(Upsert(Upsert(h, v, t1), v', t2), v.id) == 1
    ensures forall k | 0 <= k < |Upsert(Upsert(h, v, t1), v', t2)| && Upsert(Upsert(h, v, t1), v', t2)[k].videoId == v.id
              :: Upsert(Upsert(h, v, t1), v', t2)[k].watchedAt == t2
  {
    var once := Upsert(h, v, t1);
    var twice := Upsert(once, v', t2);
    RewatchKeepsLength(h, v, v', t1, t2);
    ViewRecordsExactlyThatVideo(h, v, t1);
    ViewKeepsUnique(h, v, t1);
    ViewKeepsUnique(once, v', t2);
    RewatchTouchesOnlyTimestamp(once, v', t2);
    ViewRecordsExactlyThatVideo(once, v', t2);
    UniqueIffCountAtMostOne(twice);
    CountZeroIffUnwatched(twice, v.id);
  }
}
