/**
 * Building queue items from an album (src/lib/queue-helpers.ts). The random
 * identifier source is replaced by a counter: the caller passes the first
 * unused id and item `i` of a call receives `firstId + i`.
 */
module QueueHelpers {
  import opened Maybe
  import opened Catalog

  function Min(a: int, b: int): int { if a <= b then a else b }
  function Max(a: int, b: int): int { if a >= b then a else b }

  /** How `Array.prototype.slice` turns a bound into a position in `[0, len]`. */
  function SliceBound(k: int, len: nat): (b: nat)
    ensures b <= len
    ensures 0 <= k <= len ==> b == k
  {
    if k < 0 then (if len + k < 0 then 0 else len + k)
    else if k > len then len
    else k
  }

  /** JavaScript `s.slice(start, end)`. */
  function JsSlice<T>(s: seq<T>, start: int, end: int): (r: seq<T>)
    ensures 0 <= start && 0 <= end ==> |r| == Max(0, Min(end, |s|) - Min(start, |s|))
    ensures 0 <= start ==> forall i :: 0 <= i < |r| ==> start + i < |s| && r[i] == s[start + i]
  {
    var lo := SliceBound(start, |s|);
    var hi := SliceBound(end, |s|);
    if lo <= hi then s[lo..hi] else []
  }

  /** The display title: the video's own title when non-empty, else "<artist> - <album title>". */
  function TrackTitle(album: Album, video: Video): string {
    if video.title.Some? && video.title.value != "" then video.title.value
    else album.artist + " - " + album.title
  }

  function MakeItem(album: Album, video: Video, trackIndex: int, id: ItemId): QueueItem {
    QueueItem(id, video.youtubeVideoId, TrackTitle(album, video), album.artist, album.id,
              album.title, album.imageUrl, trackIndex, |album.youtubeVideos|)
  }

  /** `convertAlbumToQueueItems(album, startIndex, endIndex)`. */
  function ConvertAlbumToQueueItems(album: Album, startIndex: int, endIndex: Option<int>, firstId: ItemId)
    : (r: seq<QueueItem>)
    ensures album.youtubeVideos == [] ==> r == []
    ensures var total := |album.youtubeVideos|;
            var end := if endIndex.Some? then Min(endIndex.value, total) else total;
            0 <= startIndex && 0 <= end ==> |r| == Max(0, end - startIndex)
    ensures 0 <= startIndex ==>
              forall i :: 0 <= i < |r| ==>
                startIndex + i < |album.youtubeVideos|
                && r[i].videoId == album.youtubeVideos[startIndex + i].youtubeVideoId
                && r[i].title == TrackTitle(album, album.youtubeVideos[startIndex + i])
    ensures forall i :: 0 <= i < |r| ==>
              && r[i].id == firstId + i
              && r[i].trackIndex == startIndex + i
              && r[i].totalTracksInAlbum == |album.youtubeVideos|
              && r[i].artist == album.artist && r[i].albumId == album.id
              && r[i].albumTitle == album.title && r[i].albumImageUrl == album.imageUrl
  {
    var videos := album.youtubeVideos;
    if |videos| == 0 then []
    else
      var total := |videos|;
      var end := if endIndex.Some? then Min(endIndex.value, total) else total;
      var slice := JsSlice(videos, startIndex, end);
      seq(|slice|, i requires 0 <= i < |slice| => MakeItem(album, slice[i], startIndex + i, firstId + i))
  }

  /** The whole album, as `playAlbum` and friends build it. */
  function AlbumItems(album: Album, firstId: ItemId): (r: seq<QueueItem>)
    ensures |r| == |album.youtubeVideos|
  {
    ConvertAlbumToQueueItems(album, 0, None, firstId)
  }

  /** `convertTrackToQueueItem(album, trackIndex)`. */
  function ConvertTrackToQueueItem(album: Album, trackIndex: int, id: ItemId): (r: Option<QueueItem>)
    ensures r.None? <==> trackIndex < 0 || trackIndex >= |album.youtubeVideos|
    ensures r.Some? ==> r.value.id == id && r.value.trackIndex == trackIndex
  {
    var videos := album.youtubeVideos;
    if trackIndex < 0 || trackIndex >= |videos| then None
    else Some(MakeItem(album, videos[trackIndex], trackIndex, id))
  }

  /** An album without videos yields no items, and then no single track either. */
  lemma NoVideosNoItems(album: Album, trackIndex: int, firstId: ItemId, id: ItemId)
    requires album.youtubeVideos == []
    ensures AlbumItems(album, firstId) == []
    ensures ConvertTrackToQueueItem(album, trackIndex, id) == None
  {
  }

  /** A single converted track equals the matching element of the whole-album conversion, id aside. */
  lemma TrackMatchesAlbum(album: Album, trackIndex: int, id: ItemId, firstId: ItemId)
    requires 0 <= trackIndex < |album.youtubeVideos|
    ensures ConvertTrackToQueueItem(album, trackIndex, id)
            == Some(AlbumItems(album, firstId)[trackIndex].(id := id))
  {
    var items := AlbumItems(album, firstId);
    assert items[trackIndex].videoId == album.youtubeVideos[trackIndex].youtubeVideoId;
  }

  /** Items of one call carry pairwise distinct ids, all in `[firstId, firstId + |r|)`. */
  lemma ConvertedIdsFresh(album: Album, startIndex: int, endIndex: Option<int>, firstId: ItemId)
    ensures var r := ConvertAlbumToQueueItems(album, startIndex, endIndex, firstId);
            (forall i :: 0 <= i < |r| ==> firstId <= r[i].id < firstId + |r|)
            && (forall i, j :: 0 <= i < j < |r| ==> r[i].id != r[j].id)
  {
  }
}
